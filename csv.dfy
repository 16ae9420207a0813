/** `ReadLineFromFileWithPixels` (source_code/model/network.cpp:320-342):
    one line of a data set, the class of a letter followed by its pixels,
    separated by commas. */
module Csv {
  import opened Wrappers
  import opened Text

  /** 2^32: an `unsigned` pixel keeps its value modulo this. */
  const UIntLimit: nat := 0x1_0000_0000

  /** Every pixel fits an `unsigned`. */
  ghost predicate Fits32(ps: seq<nat>) {
    forall k :: 0 <= k < |ps| ==> ps[k] < UIntLimit
  }

  /** What the reading loop has written so far: `*expected_value`,
      `*input_values` and whether the label has been read (`flag`). */
  datatype LineState = LineState(expected: nat, pixels: seq<nat>, flag: bool)

  /** One token read: the first one a comma ends is the label, every other
      one is a pixel, truncated to 32 bits by the vector of `unsigned`. */
  function Take(st: LineState, e: Emit, v: nat): (r: LineState)
    ensures r.flag == (st.flag || e.AtSep?)
    ensures Fits32(st.pixels) ==> Fits32(r.pixels)
  {
    if e.AtSep? && !st.flag then st.(expected := v, flag := true)
    else st.(pixels := st.pixels + [v % UIntLimit])
  }

  /** The tokens `es` read in order from `st`; the first token `std::stoul`
      refuses stops the line with its exception. */
  function Convert(es: seq<Emit>, st: LineState): (r: Result<LineState>)
    ensures r.Success? && st.expected < ULongLimit ==> r.value.expected < ULongLimit
    ensures r.Success? && Fits32(st.pixels) ==> Fits32(r.value.pixels)
    decreases |es|
  {
    if es == [] then Success(st)
    else
      match Stoul(es[0].token)
      case Failure(e) => Failure(e)
      case Success(v) => Convert(es[1..], Take(st, es[0], v))
  }

  /** The label and the pixels of `line`, starting from a label of 0 and no
      pixels as the callers do. */
  function Decode(line: string): (r: Result<(nat, seq<nat>)>)
    ensures r.Success? ==> r.value.0 < ULongLimit && Fits32(r.value.1)
  {
    match Convert(Scan(line, ','), LineState(0, [], false))
    case Failure(e) => Failure(e)
    case Success(st) => Success((st.expected, st.pixels))
  }

  /** The reading loop: a comma hands the token to `std::stoul`, for the
      label the first time and for a pixel afterwards; the last character
      of the line completes a pixel. */
  method ReadLineFromFileWithPixels(line: string) returns (r: Result<(nat, seq<nat>)>)
    ensures r == Decode(line)
  {
    var expected: nat, pixels: seq<nat>, flag := 0, [], false;
    var value: string := [];
    var i := 0;
    while i < |line|
      invariant 0 <= i <= |line|
      invariant Convert(ScanFrom(line[i..], ',', value), LineState(expected, pixels, flag))
             == Convert(Scan(line, ','), LineState(0, [], false))
    {
      assert line[i..][1..] == line[i + 1..];
      if line[i] == ',' {
        var v := Stoul(value);
        if v.Failure? {
          return Failure(v.error);
        }
        if flag {
          pixels := pixels + [v.value % UIntLimit];
        } else {
          expected, flag := v.value, true;
        }
        value := [];
      } else if i == |line| - 1 {
        assert line[i..] == [line[i]] && line[i + 1..] == [];
        value := value + [line[i]];
        var v := Stoul(value);
        if v.Failure? {
          return Failure(v.error);
        }
        pixels := pixels + [v.value % UIntLimit];
      } else {
        value := value + [line[i]];
      }
      i := i + 1;
    }
    return Success((expected, pixels));
  }

  /** The decimal tokens of some numbers. */
  function Numerals(ns: seq<nat>): (ts: seq<string>)
    ensures |ts| == |ns| && forall k :: 0 <= k < |ns| ==> ts[k] == NatToString(ns[k])
  {
    seq(|ns|, k requires 0 <= k < |ns| => NatToString(ns[k]))
  }

  /** A line of the data set: the label, then the pixels, separated by
      commas. */
  function Encode(expected: nat, pixels: seq<nat>): string {
    Join([NatToString(expected)] + Numerals(pixels), ',')
  }

  /** A decimal numeral is a token of a comma-separated line. */
  lemma NumeralIsToken(n: nat)
    ensures IsToken(NatToString(n), ',')
  {
    NatToStringDigits(n);
    assert !IsDigit(',');
  }

  /** Reading a token `std::stoul` reads as `v`, and then the rest. */
  lemma ConvertFirst(e: Emit, es: seq<Emit>, st: LineState, v: nat)
    requires Stoul(e.token) == Success(v)
    ensures Convert([e] + es, st) == Convert(es, Take(st, e, v))
  {
    assert ([e] + es)[1..] == es;
  }

  /** Pixel tokens after the label, `std::stoul` reading `ts[k]` as
      `ps[k]`: each one is appended to the pixels `acc` read so far, the
      last one by the end of the line. */
  lemma {:induction false} ConvertPixels(ts: seq<string>, ps: seq<nat>, expected: nat, acc: seq<nat>)
    requires ts != [] && Fits32(ps) && ReadAs(ts, ps)
    ensures Convert(SepsThenEnd(ts), LineState(expected, acc, true)) == Success(LineState(expected, acc + ps, true))
    decreases |ts|
  {
    if |ts| == 1 {
      ConvertFirst(AtEnd(ts[0]), [], LineState(expected, acc, true), ps[0]);
      assert [AtEnd(ts[0])] + [] == SepsThenEnd(ts);
      assert acc + ps == acc + [ps[0]];
    } else {
      assert ReadAs(ts[1..], ps[1..]);
      ConvertPixels(ts[1..], ps[1..], expected, acc + [ps[0]]);
      ConvertFirst(AtSep(ts[0]), SepsThenEnd(ts[1..]), LineState(expected, acc, true), ps[0]);
      assert SepsThenEnd(ts) == [AtSep(ts[0])] + SepsThenEnd(ts[1..]);
      assert acc + [ps[0]] + ps[1..] == acc + ps;
    }
  }

  /** `std::stoul` reads each token of `ts` as the number at the same place
      in `ns`. */
  ghost predicate ReadAs(ts: seq<string>, ns: seq<nat>) {
    |ts| == |ns| && forall k :: 0 <= k < |ts| ==> Stoul(ts[k]) == Success(ns[k])
  }

  /** Round trip of the data-set format: a line written from a label that
      fits `size_t` and at least one pixel that fits `unsigned` is read back
      as that label and those pixels. */
  lemma DecodeEncode(expected: nat, pixels: seq<nat>)
    requires expected < ULongLimit && pixels != [] && Fits32(pixels)
    ensures Decode(Encode(expected, pixels)) == Success((expected, pixels))
  {
    var ts := [NatToString(expected)] + Numerals(pixels);
    forall k | 0 <= k < |ts|
      ensures IsToken(ts[k], ',')
    {
      if k == 0 {
        NumeralIsToken(expected);
      } else {
        NumeralIsToken(pixels[k - 1]);
      }
    }
    ScanJoin(ts, ',');
    forall k | 0 <= k < |pixels|
      ensures Stoul(ts[1..][k]) == Success(pixels[k])
    {
      StoulNatToString(pixels[k]);
    }
    assert ReadAs(ts[1..], pixels);
    StoulNatToString(expected);
    ConvertFirst(AtSep(ts[0]), SepsThenEnd(ts[1..]), LineState(0, [], false), expected);
    ConvertPixels(ts[1..], pixels, expected, []);
    assert [] + pixels == pixels;
  }

  /** A line without a comma has no label: the label stays 0 and the whole
      line is one pixel. */
  lemma DecodeUnlabelled(line: string)
    requires IsToken(line, ',') && Stoul(line).Success?
    ensures Decode(line) == Success((0, [Stoul(line).value % UIntLimit]))
  {
    ScanLastToken(line, ',', []);
    assert [] + line == line;
    var v := Stoul(line).value;
    ConvertFirst(AtEnd(line), [], LineState(0, [], false), v);
    assert [AtEnd(line)] + [] == Scan(line, ',');
    assert Take(LineState(0, [], false), AtEnd(line), v) == LineState(0, [v % UIntLimit], false);
    assert Convert(Scan(line, ','), LineState(0, [], false)) == Success(LineState(0, [v % UIntLimit], false));
  }
}
