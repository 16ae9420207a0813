/** Text handling shared by the weight files and the CSV reader.

    The same character loop appears three times in the C++ code
    (matrixNetwork.cpp:227-241, graphNetwork.cpp:265-279,
    source_code/model/network.cpp:326-341): characters accumulate into a
    token; a separator emits the token; the last character of the line is
    appended and emits the token too. `Scan` is that loop as a function,
    recording for each token whether a separator or the end of the line
    emitted it, because the callers treat the two differently. The decimal
    helpers below are `std::to_string` (the depth line of a weight file)
    and `std::stoul` (the CSV reader). */
module Text {
  import opened Wrappers

  /** A token emitted by the scanning loop, tagged with what emitted it. */
  datatype Emit = AtSep(token: string) | AtEnd(token: string)

  /** Scans the rest `s` of a line, `acc` being the characters accumulated
      since the last separator. */
  function ScanFrom(s: string, sep: char, acc: string): seq<Emit>
    decreases |s|
  {
    if s == [] then []
    else if s[0] == sep then [AtSep(acc)] + ScanFrom(s[1..], sep, [])
    else if |s| == 1 then [AtEnd(acc + s)]
    else ScanFrom(s[1..], sep, acc + [s[0]])
  }

  /** The tokens the scanning loop emits for `line`, in order. */
  function Scan(line: string, sep: char): seq<Emit> {
    ScanFrom(line, sep, [])
  }

  /** The character loop itself: a separator emits the accumulated token,
      the last character is appended and emits it, any other character is
      accumulated. */
  method ScanLine(line: string, sep: char) returns (out: seq<Emit>)
    ensures out == Scan(line, sep)
  {
    out := [];
    var value: string := [];
    var i := 0;
    while i < |line|
      invariant 0 <= i <= |line|
      invariant out + ScanFrom(line[i..], sep, value) == Scan(line, sep)
    {
      assert line[i..][1..] == line[i + 1..];
      if line[i] == sep {
        out := out + [AtSep(value)];
        value := [];
      } else if i == |line| - 1 {
        assert line[i..] == [line[i]] && line[i + 1..] == [];
        value := value + [line[i]];
        out := out + [AtEnd(value)];
        value := [];
      } else {
        value := value + [line[i]];
      }
      i := i + 1;
    }
  }

  /** `ts` joined with `sep` between consecutive tokens (what the savers
      write: a separator after every token but the last). */
  function Join(ts: seq<string>, sep: char): string
    decreases |ts|
  {
    if ts == [] then []
    else if |ts| == 1 then ts[0]
    else ts[0] + [sep] + Join(ts[1..], sep)
  }

  /** The emissions of a line whose tokens are `ts`: separators emit all of
      them but the last, which the end of the line emits. */
  function SepsThenEnd(ts: seq<string>): seq<Emit>
    requires ts != []
    decreases |ts|
  {
    if |ts| == 1 then [AtEnd(ts[0])]
    else [AtSep(ts[0])] + SepsThenEnd(ts[1..])
  }

  /** A token the savers can write: not empty and free of the separator. */
  ghost predicate IsToken(t: string, sep: char) {
    t != [] && sep !in t
  }

  /** Scanning a token followed by a separator emits the whole token at the
      separator and continues afresh after it. */
  lemma {:induction false} ScanTokenThenSep(t: string, rest: string, sep: char, acc: string)
    requires sep !in t
    ensures ScanFrom(t + [sep] + rest, sep, acc) == [AtSep(acc + t)] + ScanFrom(rest, sep, [])
    decreases |t|
  {
    if t == [] {
      assert t + [sep] + rest == [sep] + rest;
      assert acc + t == acc;
    } else {
      assert (t + [sep] + rest)[1..] == t[1..] + [sep] + rest;
      assert acc + [t[0]] + t[1..] == acc + t;
      ScanTokenThenSep(t[1..], rest, sep, acc + [t[0]]);
    }
  }

  /** Scanning a final token emits it whole at the end of the line. */
  lemma {:induction false} ScanLastToken(t: string, sep: char, acc: string)
    requires IsToken(t, sep)
    ensures ScanFrom(t, sep, acc) == [AtEnd(acc + t)]
    decreases |t|
  {
    if |t| > 1 {
      assert acc + [t[0]] + t[1..] == acc + t;
      ScanLastToken(t[1..], sep, acc + [t[0]]);
    }
  }

  /** Round trip of the line format: scanning a joined line gives back the
      tokens, every one but the last emitted by a separator. */
  lemma {:induction false} ScanJoin(ts: seq<string>, sep: char)
    requires ts != [] && forall i :: 0 <= i < |ts| ==> IsToken(ts[i], sep)
    ensures Scan(Join(ts, sep), sep) == SepsThenEnd(ts)
    decreases |ts|
  {
    if |ts| == 1 {
      ScanLastToken(ts[0], sep, []);
      assert [] + ts[0] == ts[0];
    } else {
      ScanTokenThenSep(ts[0], Join(ts[1..], sep), sep, []);
      assert [] + ts[0] == ts[0];
      ScanJoin(ts[1..], sep);
    }
  }

  /** Position `j` of `SepsThenEnd(ts)` carries `ts[j]`, emitted by a
      separator exactly when it is not the last. */
  lemma {:induction false} SepsThenEndAt(ts: seq<string>, j: nat)
    requires ts != [] && j < |ts|
    ensures |SepsThenEnd(ts)| == |ts|
    ensures SepsThenEnd(ts)[j].token == ts[j]
    ensures SepsThenEnd(ts)[j].AtEnd? <==> j == |ts| - 1
    decreases |ts|
  {
    if |ts| > 1 {
      if j == 0 {
        SepsThenEndAt(ts[1..], 0);
      } else {
        SepsThenEndAt(ts[1..], j - 1);
      }
    }
  }

  // ---- Decimal numbers ----

  predicate IsDigit(c: char) {
    '0' <= c <= '9'
  }

  function DigitChar(d: nat): char
    requires d < 10
  {
    ['0', '1', '2', '3', '4', '5', '6', '7', '8', '9'][d]
  }

  function DigitValue(c: char): nat
    requires IsDigit(c)
  {
    (c as int - '0' as int) as nat
  }

  /** `std::to_string` of a non-negative integer: its decimal digits
      without leading zeros. */
  function NatToString(n: nat): string
    decreases n
  {
    if n < 10 then [DigitChar(n)] else NatToString(n / 10) + [DigitChar(n % 10)]
  }

  /** The number written by the digit string `s`. */
  function DigitsValue(s: string): nat
    requires forall i :: 0 <= i < |s| ==> IsDigit(s[i])
    decreases |s|
  {
    if s == [] then 0 else DigitsValue(s[..|s| - 1]) * 10 + DigitValue(s[|s| - 1])
  }

  /** The longest prefix of `s` made of digits. */
  function DigitPrefix(s: string): (p: string)
    ensures |p| <= |s| && p == s[..|p|]
    ensures forall i :: 0 <= i < |p| ==> IsDigit(p[i])
    ensures |p| < |s| ==> !IsDigit(s[|p|])
    decreases |s|
  {
    if s == [] || !IsDigit(s[0]) then [] else [s[0]] + DigitPrefix(s[1..])
  }

  /** The characters `isspace` accepts in the C locale. */
  predicate IsSpace(c: char) {
    c == ' ' || c == '\t' || c == '\n' || c == '\U{B}' || c == '\U{C}' || c == '\r'
  }

  /** `s` without its leading white space. */
  function SkipSpace(s: string): (r: string)
    ensures r != [] ==> !IsSpace(r[0])
    decreases |s|
  {
    if s != [] && IsSpace(s[0]) then SkipSpace(s[1..]) else s
  }

  /** 2^64: `unsigned long` holds the values below it. */
  const ULongLimit: nat := 0x1_0000_0000_0000_0000

  /** `std::stoul` in base 10: leading white space is skipped and one
      optional sign read, then the longest run of digits. Without a digit
      it throws invalid_argument; a value past ULONG_MAX throws
      out_of_range; a minus sign negates modulo 2^64. */
  function Stoul(s: string): (r: Result<nat>)
    ensures r.Success? ==> r.value < ULongLimit
    ensures r.Failure? ==> r.error == InvalidArgument || r.error == OutOfRange
  {
    var t := SkipSpace(s);
    var signed := t != [] && (t[0] == '-' || t[0] == '+');
    StoulDigitRun(DigitPrefix(if signed then t[1..] else t), signed && t[0] == '-')
  }

  /** The value `std::stoul` makes of the digit run `p`, negated modulo
      2^64 when a minus sign preceded it. */
  function StoulDigitRun(p: string, minus: bool): (r: Result<nat>)
    requires forall i :: 0 <= i < |p| ==> IsDigit(p[i])
    ensures r.Success? ==> r.value < ULongLimit
  {
    if p == [] then Failure(InvalidArgument)
    else if DigitsValue(p) >= ULongLimit then Failure(OutOfRange)
    else if minus then Success((ULongLimit - DigitsValue(p)) % ULongLimit)
    else Success(DigitsValue(p))
  }

  /** On a token made of digits only, `std::stoul` yields the number the
      digits write when it fits in 64 bits and throws out_of_range
      otherwise. */
  lemma StoulDigits(s: string)
    requires s != [] && forall i :: 0 <= i < |s| ==> IsDigit(s[i])
    ensures Stoul(s) == if DigitsValue(s) < ULongLimit then Success(DigitsValue(s)) else Failure(OutOfRange)
  {
    StoulUnsigned(s);
    DigitPrefixOfDigits(s);
  }

  /** A token that starts with a digit is read without a sign. */
  lemma StoulUnsigned(s: string)
    requires s != [] && IsDigit(s[0])
    ensures Stoul(s) == StoulDigitRun(DigitPrefix(s), false)
  {
    assert SkipSpace(s) == s;
  }

  /** A token that starts with a character other than white space, a sign
      or a digit is refused with invalid_argument. */
  lemma StoulRefuses(s: string)
    requires s != [] && !IsSpace(s[0]) && !IsDigit(s[0]) && s[0] != '-' && s[0] != '+'
    ensures Stoul(s) == Failure(InvalidArgument)
  {
    assert SkipSpace(s) == s;
  }

  lemma DigitCharValue(d: nat)
    requires d < 10
    ensures IsDigit(DigitChar(d)) && DigitValue(DigitChar(d)) == d
  {
  }

  /** `std::to_string` writes digits only, and at least one. */
  lemma {:induction false} NatToStringDigits(n: nat)
    ensures NatToString(n) != []
    ensures forall i :: 0 <= i < |NatToString(n)| ==> IsDigit(NatToString(n)[i])
    decreases n
  {
    DigitCharValue(n % 10);
    if n >= 10 {
      NatToStringDigits(n / 10);
    }
  }

  /** The digits `std::to_string` writes denote the number written. */
  lemma {:induction false} NatToStringValue(n: nat)
    ensures forall i :: 0 <= i < |NatToString(n)| ==> IsDigit(NatToString(n)[i])
    ensures DigitsValue(NatToString(n)) == n
    decreases n
  {
    NatToStringDigits(n);
    DigitCharValue(n % 10);
    if n >= 10 {
      NatToStringValue(n / 10);
      var s := NatToString(n);
      assert s[..|s| - 1] == NatToString(n / 10);
    } else {
      assert NatToString(n) == [DigitChar(n)];
      assert NatToString(n)[..0] == [];
    }
  }

  /** `std::stoul` reads back what `std::to_string` writes, for every
      number an `unsigned long` holds. */
  lemma StoulNatToString(n: nat)
    requires n < ULongLimit
    ensures Stoul(NatToString(n)) == Success(n)
  {
    NatToStringValue(n);
    StoulDigits(NatToString(n));
  }

  /** A string of digits is its own digit prefix. */
  lemma {:induction false} DigitPrefixOfDigits(s: string)
    requires forall i :: 0 <= i < |s| ==> IsDigit(s[i])
    ensures DigitPrefix(s) == s
    decreases |s|
  {
    if s != [] {
      DigitPrefixOfDigits(s[1..]);
    }
  }

  /** Different numbers have different decimal spellings, so comparing the
      depth line of a weight file with the expected one compares depths. */
  lemma NatToStringInjective(a: nat, b: nat)
    requires NatToString(a) == NatToString(b)
    ensures a == b
  {
    NatToStringValue(a);
    NatToStringValue(b);
  }
}
