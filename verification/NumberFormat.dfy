/** ultoa and itoa: numerals written backwards into a caller's buffer and then turned round. */
module NumberFormat {

  const ALPHABET: string := "0123456789ABCDEFGHIJKLMNOPQRSTUVWXYZ"

  function Digit(d: nat): char
    requires d < 36
  {
    ALPHABET[d]
  }

  function DigitValue(c: char): int {
    if '0' <= c <= '9' then c as int - '0' as int
    else if 'A' <= c <= 'Z' then c as int - 'A' as int + 10
    else -1
  }

  lemma {:induction false} DigitRoundTrip(d: nat)
    requires d < 36
    ensures DigitValue(Digit(d)) == d && (Digit(d) == '0' <==> d == 0) && Digit(d) != '\0' && Digit(d) != '-'
  {
  }

  lemma {:induction false} DivMod(v: nat, base: nat)
    requires base >= 2
    ensures v == v / base * base + v % base && v % base < base && v / base >= 0
    ensures v > 0 ==> v / base < v
    ensures 2 * (v / base) <= v
  {
  }

  // The digits of a number, most significant first; none for 0.
  function Digits(v: nat, base: nat): string
    requires 2 <= base <= 36
    decreases v
  {
    if v == 0 then ""
    else
      DivMod(v, base);
      Digits(v / base, base) + [Digit(v % base)]
  }

  function Numeral(v: nat, base: nat): string
    requires 2 <= base <= 36
  {
    if v == 0 then "0" else Digits(v, base)
  }

  // Reading a numeral back, with no reference to how it was written.
  function Parse(s: string, base: nat): int {
    if s == "" then 0 else Parse(s[..|s| - 1], base) * base + DigitValue(s[|s| - 1])
  }

  lemma {:induction false} ParseDigits(v: nat, base: nat)
    requires 2 <= base <= 36
    ensures Parse(Digits(v, base), base) == v
  {
    if v > 0 {
      DivMod(v, base);
      ParseDigits(v / base, base);
      DigitRoundTrip(v % base);
      assert Digits(v, base)[..|Digits(v, base)| - 1] == Digits(v / base, base);
    }
  }

  lemma {:induction false} NoLeadingZero(v: nat, base: nat)
    requires 2 <= base <= 36 && v > 0
    ensures Digits(v, base) != "" && Digits(v, base)[0] != '0' && Digits(v, base)[0] != '-'
  {
    DivMod(v, base);
    DigitRoundTrip(v % base);
    if v / base > 0 { NoLeadingZero(v / base, base); }
  }

  function Pow2(n: nat): nat { if n == 0 then 1 else 2 * Pow2(n - 1) }

  lemma {:induction false} DigitsFit(v: nat, base: nat, n: nat)
    requires 2 <= base <= 36 && v < Pow2(n)
    ensures |Digits(v, base)| <= n
  {
    if v > 0 {
      DivMod(v, base);
      DigitsFit(v / base, base, n - 1);
    }
  }

  lemma {:induction false} Pow2Of32()
    ensures Pow2(31) == 0x8000_0000 && Pow2(32) == 0x1_0000_0000
  {
    assert Pow2(8) == 256;
    assert Pow2(16) == 65536;
    assert Pow2(24) == 0x100_0000;
  }

  // What ultoa writes parses back to the value, has no leading zero, and with its terminator takes at
  // most 33 characters for any 32-bit value.
  lemma {:induction false} NumeralRoundTrip(v: nat, base: nat)
    requires 2 <= base <= 36
    ensures Parse(Numeral(v, base), base) == v
    ensures v > 0 ==> Numeral(v, base)[0] != '0'
    ensures v < 0x1_0000_0000 ==> |Numeral(v, base)| + 1 <= 33
  {
    if v == 0 {
      assert Parse("0", base) == Parse("", base) * base + DigitValue('0');
    } else {
      ParseDigits(v, base);
      NoLeadingZero(v, base);
      if v < 0x1_0000_0000 {
        Pow2Of32();
        DigitsFit(v, base, 32);
      }
    }
  }

  // ------------------------------------------------------------ the loops

  function Reversed(s: string): string {
    if s == "" then "" else Reversed(s[1..]) + [s[0]]
  }

  lemma {:induction false} ReversedAppend(s: string, c: char)
    ensures Reversed(s + [c]) == [c] + Reversed(s)
  {
    if s != "" {
      ReversedAppend(s[1..], c);
      assert (s + [c])[1..] == s[1..] + [c];
    }
  }

  lemma {:induction false} ReversedAt(s: string, k: nat)
    requires k < |s|
    ensures |Reversed(s)| == |s| && Reversed(s)[k] == s[|s| - 1 - k]
  {
    ReversedLength(s);
    if k < |s| - 1 { ReversedAt(s[1..], k); } else { ReversedLength(s[1..]); }
  }

  lemma {:induction false} ReversedLength(s: string)
    ensures |Reversed(s)| == |s|
  {
    if s != "" { ReversedLength(s[1..]); }
  }

  lemma {:induction false} OneMoreDigit(v: nat, base: nat, done: string)
    requires 2 <= base <= 36 && v > 0
    ensures v / base >= 0 && v % base < 36
    ensures Digits(v / base, base) + Reversed(done + [Digit(v % base)]) == Digits(v, base) + Reversed(done)
    ensures |Digits(v, base)| == |Digits(v / base, base)| + 1
  {
    DivMod(v, base);
    var c := Digit(v % base);
    ReversedAppend(done, c);
    assert Digits(v, base) == Digits(v / base, base) + [c];
    Regroup(Digits(v / base, base), c, Reversed(done));
  }

  lemma {:induction false} Regroup(front: string, c: char, back: string)
    ensures front + ([c] + back) == front + [c] + back
  {
  }

  // Only the characters from begin up to stop may differ.
  ghost predicate SameOutside(was: string, now: string, begin: nat, stop: nat) {
    |was| == |now| && forall k: nat | k < |now| && (k < begin || stop <= k) :: now[k] == was[k]
  }

  lemma {:induction false} OneMoreWritten(was: string, before: string, begin: nat, stop: nat, c: char)
    requires begin <= stop < |before| && SameOutside(was, before, begin, stop)
    ensures SameOutside(was, before[stop := c], begin, stop + 1)
    ensures before[stop := c][begin..stop + 1] == before[begin..stop] + [c]
  {
  }

  // The digit loop: least significant first, from begin on; stop is one past the last digit.
  method WriteDigits(value: nat, str: array<char>, base: nat, begin: nat) returns (stop: nat)
    requires 2 <= base <= 36 && begin + |Digits(value, base)| < str.Length
    modifies str
    ensures stop == begin + |Digits(value, base)|
    ensures Reversed(str[..][begin..stop]) == Digits(value, base)
    ensures SameOutside(old(str[..]), str[..], begin, stop)
  {
    var v: nat := value;
    stop := begin;
    assert Digits(v, base) + Reversed("") == Digits(v, base);
    while v != 0
      invariant begin <= stop && stop + |Digits(v, base)| == begin + |Digits(value, base)|
      invariant Digits(v, base) + Reversed(str[..][begin..stop]) == Digits(value, base)
      invariant SameOutside(old(str[..]), str[..], begin, stop)
      decreases v
    {
      v, stop := WriteDigit(v, str, base, begin, stop, value, old(str[..]));
    }
  }

  method WriteDigit(v: nat, str: array<char>, base: nat, begin: nat, index: nat, ghost value: nat, ghost was: string)
    returns (rest: nat, next: nat)
    requires 2 <= base <= 36 && v > 0 && begin <= index && index + |Digits(v, base)| < str.Length
    requires Digits(v, base) + Reversed(str[..][begin..index]) == Digits(value, base)
    requires SameOutside(was, str[..], begin, index)
    modifies str
    ensures next == index + 1 && rest == v / base < v && index + |Digits(v, base)| == next + |Digits(rest, base)|
    ensures Digits(rest, base) + Reversed(str[..][begin..next]) == Digits(value, base)
    ensures SameOutside(was, str[..], begin, next)
  {
    ghost var before := str[..];
    OneMoreDigit(v, base, before[begin..index]);
    OneMoreWritten(was, before, begin, index, Digit(v % base));
    DivMod(v, base);
    str[index] := ALPHABET[v % base];
    assert str[..] == before[index := Digit(v % base)];
    rest, next := v / base, index + 1;
  }

  // A text whose part between two bounds is turned round.
  ghost predicate TurnedRound(was: string, now: string, begin: nat, stop: nat) {
    && SameOutside(was, now, begin, stop)
    && forall k: nat | begin <= k < stop && stop <= |now| :: now[k] == was[begin + stop - 1 - k]
  }

  lemma {:induction false} TurnedRoundIsReversed(was: string, now: string, begin: nat, stop: nat)
    requires begin <= stop <= |was| && TurnedRound(was, now, begin, stop)
    ensures now[begin..stop] == Reversed(was[begin..stop])
  {
    var s := was[begin..stop];
    ReversedLength(s);
    forall k: nat | k < |s| ensures now[begin + k] == Reversed(s)[k] {
      ReversedAt(s, k);
    }
  }

  // The swap loop: the characters from first up to stop turned round in place.
  method ReverseRange(str: array<char>, first: nat, stop: nat)
    requires first <= stop <= str.Length
    modifies str
    ensures TurnedRound(old(str[..]), str[..], first, stop)
  {
    var begin: nat, index: int := first, stop - 1;
    while index > begin
      invariant first <= begin <= index + 2 && begin - first == stop - 1 - index && index < stop
      invariant forall k: nat | first <= k < begin || index < k < stop :: str[k] == old(str[first + stop - 1 - k])
      invariant forall k: nat | k < str.Length && !(first <= k < begin || index < k < stop) :: str[k] == old(str[k])
    {
      var temp := str[index];
      str[index] := str[begin];
      str[begin] := temp;
      index, begin := index - 1, begin + 1;
    }
  }

  // The buffer afterwards: the text from begin on, a terminator, and the rest as it was.
  ghost predicate Written(was: string, now: string, text: string) {
    |text| + 1 <= |was| && now == text + ['\0'] + was[|text| + 1..]
  }

  method WriteZero(str: array<char>)
    requires str.Length >= 2
    modifies str
    ensures Written(old(str[..]), str[..], "0")
  {
    str[0] := '0';
    str[1] := '\0';
    assert str[..] == "0" + ['\0'] + old(str[..])[2..];
  }

  method Ultoa(value: nat, str: array<char>, base: int)
    requires 2 <= base <= 36 ==> |Numeral(value, base)| + 1 <= str.Length
    modifies str
    ensures base < 2 || base > 36 ==> str[..] == old(str[..])
    ensures 2 <= base <= 36 ==> Written(old(str[..]), str[..], Numeral(value, base))
  {
    if base < 2 || base > 36 { return; }
    if value == 0 {
      WriteZero(str);
      return;
    }
    WritePositive(value, str, base);
  }

  method WritePositive(v: nat, str: array<char>, base: nat)
    requires 2 <= base <= 36 && v > 0 && |Digits(v, base)| < str.Length
    modifies str
    ensures Written(old(str[..]), str[..], Digits(v, base))
  {
    WriteNumber(v, str, base, 0);
    assert old(str[..])[..0] + Digits(v, base) == Digits(v, base);
  }

  // From begin on: the digits, the terminator, and the digits turned round.
  method WriteNumber(v: nat, str: array<char>, base: nat, begin: nat)
    requires 2 <= base <= 36 && v > 0 && begin + |Digits(v, base)| < str.Length
    modifies str
    ensures Written(old(str[..]), str[..], old(str[..])[..begin] + Digits(v, base))
  {
    var index := WriteDigits(v, str, base, begin);
    ghost var digits := str[..];
    str[index] := '\0';
    ghost var ended := str[..];
    assert ended[begin..index] == digits[begin..index];
    ReverseRange(str, begin, index);
    TurnedRoundIsReversed(ended, str[..], begin, index);
    WrittenInParts(old(str[..]), str[..], begin, index, Digits(v, base));
  }

  lemma {:induction false} WrittenInParts(was: string, now: string, begin: nat, index: nat, digits: string)
    requires index == begin + |digits| < |was| && SameOutside(was, now, begin, index + 1)
    requires now[begin..index] == digits && now[index] == '\0'
    ensures Written(was, now, was[..begin] + digits)
  {
    assert now[..begin] == was[..begin];
    assert now[index + 1..] == was[index + 1..];
    assert now == now[..begin] + now[begin..index] + [now[index]] + now[index + 1..];
  }

  // ------------------------------------------------------------ signed numbers

  // ~value + 1 as a 32-bit int.
  function Negated32(value: int): int {
    var n := -value;
    if n >= 0x8000_0000 then n - 0x1_0000_0000 else n
  }

  // C's division on a negative number: towards zero, the remainder keeping the sign.
  function TruncatedDiv(v: int, base: nat): int
    requires base >= 2
  {
    if v < 0 then -(-v / base) else v / base
  }

  function TruncatedMod(v: int, base: nat): int
    requires base >= 2
  {
    if v < 0 then -(-v % base) else v % base
  }

  // The digit loop started on v only ever looks up characters of its alphabet.
  predicate LooksUpDigits(v: int, base: nat)
    requires 2 <= base <= 36
    decreases if v < 0 then -v else v
  {
    if v == 0 then true
    else
      DivMod(if v < 0 then -v else v, base);
      0 <= TruncatedMod(v, base) < 36 && LooksUpDigits(TruncatedDiv(v, base), base)
  }

  lemma {:induction false} LooksUpDigitsExactly(v: int, base: nat)
    requires 2 <= base <= 36
    ensures LooksUpDigits(v, base) <==> v >= 0
    decreases if v < 0 then -v else v
  {
    if v != 0 {
      DivMod(if v < 0 then -v else v, base);
      LooksUpDigitsExactly(TruncatedDiv(v, base), base);
    }
  }

  // itoa's loop stays inside its alphabet for every int in every base but the smallest int, in any base:
  // negated in 32 bits that one is itself, and some remainder of it is negative.
  lemma {:induction false} ItoaIsDefinedExactly(value: int, base: nat)
    requires -0x8000_0000 <= value < 0x8000_0000 && 2 <= base <= 36
    ensures LooksUpDigits(if value < 0 then Negated32(value) else value, base) <==> value != -0x8000_0000
  {
    LooksUpDigitsExactly(if value < 0 then Negated32(value) else value, base);
  }

  function Signed(value: int, base: nat): string
    requires 2 <= base <= 36
  {
    if value < 0 then "-" + Numeral(-value, base) else Numeral(value, base)
  }

  function ParseSigned(s: string, base: nat): int {
    if s != "" && s[0] == '-' then -Parse(s[1..], base) else Parse(s, base)
  }

  lemma {:induction false} SignedRoundTrip(value: int, base: nat)
    requires 2 <= base <= 36
    ensures ParseSigned(Signed(value, base), base) == value
    ensures -0x8000_0000 < value < 0x8000_0000 ==> |Signed(value, base)| + 1 <= 33
  {
    var v := if value < 0 then -value else value;
    NumeralRoundTrip(v, base);
    if v > 0 {
      NoLeadingZero(v, base);
      if v < 0x8000_0000 {
        Pow2Of32();
        DigitsFit(v, base, 31);
      }
    }
    if value < 0 { assert Signed(value, base)[1..] == Numeral(v, base); }
  }

  // The sign shifts where the digits begin.
  method WriteNegative(v: nat, str: array<char>, base: nat)
    requires 2 <= base <= 36 && v > 0 && |Digits(v, base)| + 1 < str.Length
    modifies str
    ensures Written(old(str[..]), str[..], "-" + Digits(v, base))
  {
    str[0] := '-';
    assert str[..][..1] == "-";
    WriteNumber(v, str, base, 1);
  }

  lemma {:induction false} SignedIs(value: int, base: nat)
    requires -0x8000_0000 < value < 0x8000_0000 && value != 0 && 2 <= base <= 36
    ensures value < 0 ==> Negated32(value) == -value && Signed(value, base) == "-" + Digits(-value, base)
    ensures value > 0 ==> Signed(value, base) == Digits(value, base)
  {
  }

  method WriteSigned(value: int, str: array<char>, base: nat)
    requires -0x8000_0000 < value < 0x8000_0000 && value != 0 && 2 <= base <= 36
    requires |Signed(value, base)| + 1 <= str.Length
    modifies str
    ensures Written(old(str[..]), str[..], Signed(value, base))
  {
    SignedIs(value, base);
    if value < 0 {
      WriteNegative(Negated32(value), str, base);
    } else {
      WritePositive(value, str, base);
    }
  }

  method Itoa(value: int, str: array<char>, base: int)
    requires -0x8000_0000 <= value < 0x8000_0000
    requires 2 <= base <= 36 ==> value != -0x8000_0000 && |Signed(value, base)| + 1 <= str.Length
    modifies str
    ensures base < 2 || base > 36 ==> str[..] == old(str[..])
    ensures 2 <= base <= 36 ==> Written(old(str[..]), str[..], Signed(value, base))
  {
    if base < 2 || base > 36 { return; }
    if value == 0 {
      WriteZero(str);
    } else {
      WriteSigned(value, str, base);
    }
  }
}
