/**
 Option keys such as O:AAPL250620C00150000: a root, six digits of date, the right, eight
 digits of strike in thousandths. Text is ASCII and already stripped of blanks.
 */
module OptionTicker {
  import opened Wrappers
  import opened CivilMonths

  /** What a key says; a year is whole, a strike in thousandths. */
  datatype Contract = Contract(root: string, year: nat, month: nat, day: nat, right: char, strike: nat)

  const TAIL := 15
  const PREFIX := 2

  // ------------------------------------------------------------------------ digits

  predicate IsDigit(c: char) {
    '0' <= c <= '9'
  }

  predicate AllDigits(s: string) {
    forall i :: 0 <= i < |s| ==> IsDigit(s[i])
  }

  function Pow10(n: nat): nat {
    if n == 0 then 1 else 10 * Pow10(n - 1)
  }

  /** `int(s)`. */
  function Num(s: string): nat
    requires AllDigits(s)
  {
    if s == "" then 0 else 10 * Num(s[..|s| - 1]) + (s[|s| - 1] as int - '0' as int)
  }

  function DigitChar(d: nat): char
    requires d < 10
  {
    ('0' as int + d) as char
  }

  /** `n` on `width` digits. */
  function Digits(n: nat, width: nat): (s: string)
    ensures |s| == width && AllDigits(s)
  {
    if width == 0 then "" else Digits(n / 10, width - 1) + [DigitChar(n % 10)]
  }

  lemma {:induction false} NumOfDigits(n: nat, width: nat)
    requires n < Pow10(width)
    ensures Num(Digits(n, width)) == n
  {
    if width > 0 {
      NumOfDigits(n / 10, width - 1);
      assert Digits(n, width)[..width - 1] == Digits(n / 10, width - 1);
    }
  }

  lemma {:induction false} DigitsOfNum(s: string)
    requires AllDigits(s)
    ensures Num(s) < Pow10(|s|) && Digits(Num(s), |s|) == s
  {
    if s != "" {
      var width := |s| - 1;
      var init, d := s[..width], s[width] as int - '0' as int;
      DigitsOfNum(init);
      LastDigit(Num(init), d);
      DigitsStep(Num(s), width);
      assert DigitChar(d) == s[width] && init + [s[width]] == s;
    }
  }

  lemma LastDigit(n: nat, d: nat)
    requires d < 10
    ensures (10 * n + d) / 10 == n && (10 * n + d) % 10 == d
  {
  }

  lemma DigitsStep(n: nat, width: nat)
    ensures Digits(n, width + 1) == Digits(n / 10, width) + [DigitChar(n % 10)]
  {
  }

  // ------------------------------------------------------------------------- parse

  predicate IsRootChar(c: char) {
    'A' <= c <= 'Z' || IsDigit(c) || c == '.' || c == '-'
  }

  predicate AllRoot(s: string) {
    forall i :: 0 <= i < |s| ==> IsRootChar(s[i])
  }

  function UpperChar(c: char): char {
    if 'a' <= c <= 'z' then (c as int - 32) as char else c
  }

  /** `raw.upper()`. */
  function Upper(s: string): (u: string)
    ensures |u| == |s|
  {
    seq(|s|, i requires 0 <= i < |s| => UpperChar(s[i]))
  }

  /** The pattern after the root, to the end of the text: two digits three times, the right, eight digits. */
  predicate IsTail(t: string) {
    && |t| == TAIL && AllDigits(t[..2]) && AllDigits(t[2..4]) && AllDigits(t[4..6])
    && (t[6] == 'C' || t[6] == 'P') && AllDigits(t[7..])
  }

  /** The pattern matches with a root of `n` characters. */
  predicate Matches(raw: string, n: nat) {
    && n >= 1 && |raw| >= PREFIX + n && raw[..PREFIX] == "O:"
    && AllRoot(raw[PREFIX..PREFIX + n]) && IsTail(raw[PREFIX + n..])
  }

  /** The root is matched non-greedily: the shortest that leaves a tail, one character more at a time. */
  method FindSplit(raw: string) returns (n: Option<nat>)
    ensures n.Some? ==> Matches(raw, n.value)
    ensures n.None? ==> forall k :: !Matches(raw, k)
  {
    if |raw| < PREFIX || raw[..PREFIX] != "O:" { return None; }
    var k := 1;
    while PREFIX + k <= |raw| && IsRootChar(raw[PREFIX + k - 1])
      invariant k >= 1 && PREFIX + k - 1 <= |raw|
      invariant AllRoot(raw[PREFIX..PREFIX + k - 1])
      invariant forall j: nat :: j < k ==> !Matches(raw, j)
    {
      assert raw[PREFIX..PREFIX + k] == raw[PREFIX..PREFIX + k - 1] + [raw[PREFIX + k - 1]];
      if IsTail(raw[PREFIX + k..]) { return Some(k); }
      k := k + 1;
    }
    forall m: nat ensures !Matches(raw, m) {
      if m >= k && PREFIX + k <= |raw| && PREFIX + m <= |raw| {
        assert raw[PREFIX..PREFIX + m][k - 1] == raw[PREFIX + k - 1];
      }
    }
    n := None;
  }

  /** A key splits in one way only: digits in the root leave no doubt where it ends. */
  lemma OneSplit(raw: string, n: nat, m: nat)
    requires Matches(raw, n) && Matches(raw, m)
    ensures n == m && n == |raw| - PREFIX - TAIL
  {
  }

  predicate ValidDate(year: nat, month: nat, day: nat) {
    year >= 1 && 1 <= month <= 12 && 1 <= day <= DaysInMonth((year - 1) * 12 + month - 1)
  }

  /** Two digits of year: 00 to 69 are this century's. */
  function FullYear(yy: nat): nat {
    if yy < 70 then 2000 + yy else 1900 + yy
  }

  /** The contract a root and a tail spell; None where `date` raises. */
  function Read(root: string, t: string): Option<Contract>
    requires IsTail(t)
  {
    var year, month, day := FullYear(Num(t[..2])), Num(t[2..4]), Num(t[4..6]);
    if !ValidDate(year, month, day) then None
    else Some(Contract(root, year, month, day, t[6], Num(t[7..])))
  }

  /** What `parse_option_ticker` gives for an upper-cased key; None is its ValueError. */
  function Parsed(raw: string): Option<Contract> {
    var n := |raw| - PREFIX - TAIL;
    if n < 0 || !Matches(raw, n) then None else Read(raw[PREFIX..PREFIX + n], raw[PREFIX + n..])
  }

  method ParseOptionTicker(text: string) returns (r: Option<Contract>)
    ensures r == Parsed(Upper(text))
  {
    var raw := Upper(text);
    var n := FindSplit(raw);
    if n.None? { return None; }
    r := Read(raw[PREFIX..PREFIX + n.value], raw[PREFIX + n.value..]);
  }

  // ------------------------------------------------------- which texts are keys

  predicate IsLetter(c: char) {
    'A' <= c <= 'Z' || 'a' <= c <= 'z'
  }

  predicate DigitsAt(text: string, from: int, to: int) {
    forall i :: from <= i < to && 0 <= i < |text| ==> '0' <= text[i] <= '9'
  }

  /** The text has the shape of a key, in whatever case: O:, a root, six digits, C or P, eight digits. */
  predicate HasShape(text: string) {
    var n := |text|;
    && n >= 18 && (text[0] == 'O' || text[0] == 'o') && text[1] == ':'
    && (forall i :: 2 <= i < n - 15 ==>
          IsLetter(text[i]) || '0' <= text[i] <= '9' || text[i] == '.' || text[i] == '-')
    && DigitsAt(text, n - 15, n - 9) && DigitsAt(text, n - 8, n)
    && (text[n - 9] == 'C' || text[n - 9] == 'c' || text[n - 9] == 'P' || text[n - 9] == 'p')
  }

  /** The two-digit number at a place. */
  function Two(text: string, i: int): int
    requires 0 <= i && i + 1 < |text|
  {
    10 * (text[i] as int - '0' as int) + (text[i + 1] as int - '0' as int)
  }

  predicate IsLeapYear(year: int) {
    year % 4 == 0 && (year % 100 != 0 || year % 400 == 0)
  }

  predicate InMonth(year: int, month: int, day: int) {
    1 <= month <= 12 && 1 <= day <=
      (if month == 2 then if IsLeapYear(year) then 29 else 28
       else if month in {4, 6, 9, 11} then 30 else 31)
  }

  lemma UpperCharIs(c: char)
    ensures IsRootChar(UpperChar(c)) <==> IsLetter(c) || '0' <= c <= '9' || c == '.' || c == '-'
    ensures IsDigit(UpperChar(c)) <==> '0' <= c <= '9'
    ensures '0' <= c <= '9' ==> UpperChar(c) == c
    ensures UpperChar(c) == 'O' <==> c == 'O' || c == 'o'
    ensures UpperChar(c) == ':' <==> c == ':'
    ensures UpperChar(c) == 'C' <==> c == 'C' || c == 'c'
    ensures UpperChar(c) == 'P' <==> c == 'P' || c == 'p'
  {
  }

  lemma TailShape(text: string)
    requires |text| >= 18
    ensures var n, raw := |text|, Upper(text);
            IsTail(raw[n - 15..]) <==>
              && DigitsAt(text, n - 15, n - 9) && DigitsAt(text, n - 8, n)
              && (text[n - 9] == 'C' || text[n - 9] == 'c' || text[n - 9] == 'P' || text[n - 9] == 'p')
  {
    var n, raw := |text|, Upper(text);
    var t := raw[n - 15..];
    TailIs(t);
    UpperCharIs(text[n - 9]);
    forall i | 0 <= i < 15 ensures IsDigit(t[i]) <==> '0' <= text[n - 15 + i] <= '9' {
      UpperCharIs(text[n - 15 + i]);
    }
    DigitsShift(text, t, n - 15, 0, 6);
    DigitsShift(text, t, n - 15, 7, 15);
  }

  lemma DigitsShift(text: string, t: string, at: nat, from: nat, to: nat)
    requires |text| == at + |t| && from <= to <= |t|
    requires forall i :: 0 <= i < |t| ==> (IsDigit(t[i]) <==> '0' <= text[at + i] <= '9')
    ensures DigitsAt(text, at + from, at + to) <==> forall i :: from <= i < to ==> IsDigit(t[i])
  {
    if DigitsAt(text, at + from, at + to) {
      forall i | from <= i < to ensures IsDigit(t[i]) {
        assert '0' <= text[at + i] <= '9';
      }
    }
    if forall i :: from <= i < to ==> IsDigit(t[i]) {
      forall j | at + from <= j < at + to && 0 <= j < |text| ensures '0' <= text[j] <= '9' {
        assert IsDigit(t[j - at]);
      }
    }
  }

  lemma TailIs(t: string)
    requires |t| == 15
    ensures IsTail(t) <==>
              && (forall i :: 0 <= i < 6 ==> IsDigit(t[i])) && (t[6] == 'C' || t[6] == 'P')
              && (forall i :: 7 <= i < 15 ==> IsDigit(t[i]))
  {
    if IsTail(t) {
      assert t[..2][0] == t[0] && t[..2][1] == t[1] && t[2..4][0] == t[2] && t[2..4][1] == t[3];
      assert t[4..6][0] == t[4] && t[4..6][1] == t[5];
      forall i | 7 <= i < 15 ensures IsDigit(t[i]) {
        assert t[7..][i - 7] == t[i];
      }
    }
  }

  lemma RootShape(text: string)
    requires |text| >= 18
    ensures var n, raw := |text|, Upper(text);
            (raw[..PREFIX] == "O:" && AllRoot(raw[PREFIX..n - 15])) <==>
              && (text[0] == 'O' || text[0] == 'o') && text[1] == ':'
              && (forall i :: 2 <= i < n - 15 ==>
                    IsLetter(text[i]) || '0' <= text[i] <= '9' || text[i] == '.' || text[i] == '-')
  {
    var n, raw := |text|, Upper(text);
    UpperCharIs(text[0]);
    UpperCharIs(text[1]);
    assert raw[..PREFIX] == [raw[0], raw[1]];
    forall i | 2 <= i < n - 15
      ensures IsRootChar(raw[i]) <==> IsLetter(text[i]) || '0' <= text[i] <= '9' || text[i] == '.' || text[i] == '-'
    {
      UpperCharIs(text[i]);
    }
    var root := raw[PREFIX..n - 15];
    forall i | 0 <= i < |root| ensures root[i] == raw[i + 2] {
    }
    forall i | 2 <= i < n - 15 ensures root[i - 2] == raw[i] {
    }
  }

  lemma MatchesIff(text: string)
    ensures |text| >= 17 && Matches(Upper(text), |text| - 17) <==> HasShape(text)
  {
    if |text| >= 18 {
      TailShape(text);
      RootShape(text);
    }
  }

  lemma TwoDigits(s: string)
    requires |s| == 2 && AllDigits(s)
    ensures Num(s) == Two(s, 0)
  {
    assert s[..1][..0] == "" && s[..1][0] == s[0];
    assert Num(s[..1]) == s[0] as int - '0' as int;
  }

  lemma MonthHolds(year: nat, month: nat, day: nat)
    requires year >= 1
    ensures ValidDate(year, month, day) <==> InMonth(year, month, day)
  {
    if 1 <= month <= 12 {
      var y, k := year - 1, month - 1;
      assert (12 * y + k) % 12 == k && (12 * y + k) / 12 == y;
      assert y * 12 + month - 1 == 12 * y + k;
    }
  }

  lemma TwoAt(text: string, t: string, i: nat)
    requires |text| >= 18 && t == Upper(text)[|text| - 15..] && IsTail(t) && i in {0, 2, 4}
    ensures Num(t[i..i + 2]) == Two(text, |text| - 15 + i)
  {
    TwoDigits(t[i..i + 2]);
    UpperCharIs(text[|text| - 15 + i]);
    UpperCharIs(text[|text| - 14 + i]);
  }

  /**
   Which texts are option keys, and what they say: those of the shape whose date exists, two
   digits of year below 70 being this century's; the root in capitals.
   */
  lemma ParsesIff(text: string)
    ensures var n, key := |text|, Parsed(Upper(text));
            if !HasShape(text) then key == None
            else
              var yy, month, day := Two(text, n - 15), Two(text, n - 13), Two(text, n - 11);
              var year := if yy < 70 then 2000 + yy else 1900 + yy;
              && (key.Some? <==> InMonth(year, month, day))
              && (key.Some? ==>
                    && key.value.year == year && key.value.month == month && key.value.day == day
                    && key.value.root == Upper(text)[2..n - 15] && key.value.right == Upper(text)[n - 9])
  {
    ParsedIsRead(text);
    if HasShape(text) {
      ReadSays(text, Upper(text)[2..|text| - 15], Upper(text)[|text| - 15..]);
    }
  }

  lemma ParsedIsRead(text: string)
    ensures var n, raw := |text|, Upper(text);
            if !HasShape(text) then Parsed(raw) == None
            else IsTail(raw[n - 15..]) && Parsed(raw) == Read(raw[2..n - 15], raw[n - 15..])
  {
    MatchesIff(text);
  }

  lemma ReadSays(text: string, root: string, t: string)
    requires |text| >= 18 && t == Upper(text)[|text| - 15..] && IsTail(t)
    ensures var n, key := |text|, Read(root, t);
            var yy, month, day := Two(text, n - 15), Two(text, n - 13), Two(text, n - 11);
            var year := if yy < 70 then 2000 + yy else 1900 + yy;
            && (key.Some? <==> InMonth(year, month, day))
            && (key.Some? ==>
                  && key.value.year == year && key.value.month == month && key.value.day == day
                  && key.value.root == root && key.value.right == Upper(text)[n - 9])
  {
    TwoAt(text, t, 0);
    TwoAt(text, t, 2);
    TwoAt(text, t, 4);
    YearDigits(t[..2]);
    MonthHolds(FullYear(Num(t[..2])), Num(t[2..4]), Num(t[4..6]));
  }

  // ------------------------------------------------------------------------- print

  function PrintTail(c: Contract): string {
    Digits(c.year % 100, 2) + Digits(c.month, 2) + Digits(c.day, 2) + [c.right] + Digits(c.strike, 8)
  }

  /** The key of a contract, as the vendor spells it. */
  function Print(c: Contract): string {
    "O:" + c.root + PrintTail(c)
  }

  predicate Valid(c: Contract) {
    && c.root != "" && AllRoot(c.root) && ValidDate(c.year, c.month, c.day)
    && (c.right == 'C' || c.right == 'P') && c.strike < 100_000_000
  }

  lemma Powers()
    ensures Pow10(2) == 100 && Pow10(8) == 100_000_000
  {
    assert Pow10(4) == 10_000;
  }

  lemma PrintTailIs(c: Contract)
    requires c.right == 'C' || c.right == 'P'
    ensures var t := PrintTail(c);
            && IsTail(t) && t[..2] == Digits(c.year % 100, 2) && t[2..4] == Digits(c.month, 2)
               && t[4..6] == Digits(c.day, 2)
            && t[6] == c.right && t[7..] == Digits(c.strike, 8)
  {
  }

  lemma PrintMatches(c: Contract)
    requires Valid(c)
    ensures var raw, n := Print(c), |c.root|;
            |raw| == PREFIX + n + TAIL && Matches(raw, n) && raw[PREFIX..PREFIX + n] == c.root
                && raw[PREFIX + n..] == PrintTail(c)
  {
    var raw, n := Print(c), |c.root|;
    PrintTailIs(c);
    assert raw[..PREFIX] == "O:" && raw[PREFIX..PREFIX + n] == c.root && raw[PREFIX + n..] == PrintTail(c);
  }

  /** What parsing a printed key gives: the contract, with the century the parser assumes. */
  lemma ParsedOfPrint(c: Contract)
    requires Valid(c)
    ensures Parsed(Print(c)) ==
            var year := FullYear(c.year % 100);
            if ValidDate(year, c.month, c.day) then Some(c.(year := year)) else None
  {
    PrintMatches(c);
    PrintTailIs(c);
    Powers();
    NumOfDigits(c.year % 100, 2);
    NumOfDigits(c.month, 2);
    NumOfDigits(c.day, 2);
    NumOfDigits(c.strike, 8);
  }

  /** Parsing inverts printing exactly for the expiries of 1970 to 2069. */
  lemma ParseInvertsPrintIff(c: Contract)
    requires Valid(c)
    ensures Parsed(Print(c)) == Some(c) <==> 1970 <= c.year <= 2069
  {
    ParsedOfPrint(c);
    assert 1970 <= c.year < 2000 ==> c.year % 100 == c.year - 1900;
    assert 2000 <= c.year <= 2069 ==> c.year % 100 == c.year - 2000;
  }

  lemma YearDigits(s: string)
    requires |s| == 2 && AllDigits(s)
    ensures 1970 <= FullYear(Num(s)) <= 2069 && Digits(FullYear(Num(s)) % 100, 2) == s
  {
    Powers();
    DigitsOfNum(s);
    assert FullYear(Num(s)) % 100 == Num(s);
  }

  lemma ReadTail(root: string, t: string)
    requires IsTail(t) && Read(root, t).Some?
    ensures var c := Read(root, t).value;
            && PrintTail(c) == t && c.root == root && 1970 <= c.year <= 2069 && c.strike < 100_000_000
            && ValidDate(c.year, c.month, c.day) && (c.right == 'C' || c.right == 'P')
  {
    var c := Read(root, t).value;
    Powers();
    YearDigits(t[..2]);
    DigitsOfNum(t[7..]);
    TailFromParts(c, t) by {
      DigitsOfNum(t[2..4]);
      DigitsOfNum(t[4..6]);
    }
  }

  lemma TailFromParts(c: Contract, t: string)
    requires |t| == TAIL && t[..2] == Digits(c.year % 100, 2) && t[2..4] == Digits(c.month, 2)
             && t[4..6] == Digits(c.day, 2)
    requires t[6] == c.right && t[7..] == Digits(c.strike, 8)
    ensures PrintTail(c) == t
  {
  }

  /** Printing inverts parsing on every key that parses. */
  lemma PrintInvertsParse(raw: string)
    requires Parsed(raw).Some?
    ensures var c := Parsed(raw).value;
            Valid(c) && 1970 <= c.year <= 2069 && Print(c) == raw
  {
    var at := |raw| - TAIL;
    ReadTail(raw[PREFIX..at], raw[at..]);
    assert raw == raw[..PREFIX] + raw[PREFIX..at] + raw[at..];
  }

  /** Two keys that parse to one contract are one key. */
  lemma ParseIsInjective(a: string, b: string)
    requires Parsed(a).Some? && Parsed(a) == Parsed(b)
    ensures a == b
  {
    PrintInvertsParse(a);
    PrintInvertsParse(b);
  }

  // -------------------------------------------------------------------------- root

  /** `option_root`: the text between the prefix and the tail, whatever they hold. */
  function OptionRoot(text: string): Option<string> {
    var raw := Upper(text);
    if |raw| <= TAIL + PREFIX || raw[..PREFIX] != "O:" then None
    else Some(raw[PREFIX..|raw| - TAIL])
  }

  /** The two readings of a root agree on every key the parser accepts. */
  lemma RootsAgree(text: string)
    requires Parsed(Upper(text)).Some?
    ensures OptionRoot(text) == Some(Parsed(Upper(text)).value.root)
  {
  }

  /** A text with a root and no key after it. */
  const NO_KEY := "O:A000000000000000"

  /** The root is read from texts that are no keys as well: any text with the prefix that is long enough. */
  lemma RootWithoutKey(text: string)
    ensures OptionRoot(text).Some? <==> |text| > PREFIX + TAIL && Upper(text)[..PREFIX] == "O:"
    ensures OptionRoot(NO_KEY) == Some("A") && Parsed(Upper(NO_KEY)) == None
  {
    var raw := Upper(NO_KEY);
    assert raw[PREFIX..|raw| - TAIL] == "A" && raw[..PREFIX] == "O:";
    assert raw[3..][6] == '0';
  }
}
