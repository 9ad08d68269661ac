/** `Writer::write`: the text written to `troubleSample.csv`, one line per
    sample in vector order, `slow,delta,inst,cpu,miss` ended by a newline.
    `QTextStream` prints a `bool` as `0` or `1` and a `qint64` in decimal with
    a leading `-` when negative.

    `Parse` reads such text back; the round trip `Parse(Text(s)) == Some(s)`
    says the format loses nothing. */
module Writer {
  import opened Wrappers
  import opened Sampling

  predicate IsDigit(c: char)
  {
    '0' <= c <= '9'
  }

  predicate AllDigits(s: string)
  {
    forall k :: 0 <= k < |s| ==> IsDigit(s[k])
  }

  function DigitChar(d: nat): (c: char)
    requires d < 10
    ensures IsDigit(c) && c as int - '0' as int == d
  {
    ('0' as int + d) as char
  }

  /** Decimal digits of `n`, most significant first, no leading zeros. */
  function NatToText(n: nat): (s: string)
    ensures |s| >= 1 && AllDigits(s)
    decreases n
  {
    if n < 10 then [DigitChar(n)] else NatToText(n / 10) + [DigitChar(n % 10)]
  }

  /** The value of a string of decimal digits. */
  function TextToNat(s: string): nat
    requires AllDigits(s)
    decreases |s|
  {
    if s == [] then 0 else TextToNat(s[..|s| - 1]) * 10 + (s[|s| - 1] as int - '0' as int)
  }

  lemma {:induction false} NatRoundTrip(n: nat)
    ensures TextToNat(NatToText(n)) == n
    decreases n
  {
    if n >= 10 {
      var s := NatToText(n);
      assert s[..|s| - 1] == NatToText(n / 10);
      NatRoundTrip(n / 10);
    }
  }

  /** How `QTextStream` prints a `qint64`. */
  function IntToText(x: int): string
  {
    if x < 0 then "-" + NatToText(-x) else NatToText(x)
  }

  function ParseInt(s: string): Option<int>
  {
    if |s| >= 2 && s[0] == '-' && AllDigits(s[1..]) then Some(-(TextToNat(s[1..]) as int))
    else if |s| >= 1 && AllDigits(s) then Some(TextToNat(s))
    else None
  }

  lemma IntRoundTrip(x: int)
    ensures ParseInt(IntToText(x)) == Some(x)
  {
    if x < 0 {
      NatRoundTrip(-x);
      assert IntToText(x)[1..] == NatToText(-x);
    } else {
      NatRoundTrip(x);
    }
  }

  /** How `QTextStream` prints a `bool`. */
  function BoolToText(b: bool): string
  {
    if b then "1" else "0"
  }

  function ParseBool(s: string): Option<bool>
  {
    if s == "1" then Some(true) else if s == "0" then Some(false) else None
  }

  /** The five fields of a sample as the stream prints them, in file order. */
  function Fields(s: Sample): seq<string>
  {
    [BoolToText(s.slow), IntToText(s.delta), IntToText(s.inst), IntToText(s.cpu), IntToText(s.miss)]
  }

  /** The line written for one sample: its fields joined by `,`, then a newline. */
  function Line(s: Sample): string
  {
    Join(Fields(s), ',') + "\n"
  }

  /** The line spelled out as the stream receives it, one field and separator at a time. */
  lemma LineSpelledOut(s: Sample)
    ensures Line(s) == BoolToText(s.slow) + "," + IntToText(s.delta) + "," + IntToText(s.inst) + ","
                       + IntToText(s.cpu) + "," + IntToText(s.miss) + "\n"
  {
    var f := Fields(s);
    assert Join(f[4..], ',') == f[4];
    assert Join(f[3..], ',') == f[3] + "," + f[4];
    assert Join(f[2..], ',') == f[2] + "," + f[3] + "," + f[4];
    assert Join(f[1..], ',') == f[1] + "," + f[2] + "," + f[3] + "," + f[4];
  }

  /** The whole file: the lines of all samples, in order. */
  function Text(samples: seq<Sample>): string
  {
    if samples == [] then "" else Line(samples[0]) + Text(samples[1..])
  }

  /** Position of the first `c` in `s`, or `|s|` when there is none. */
  function IndexOf(s: string, c: char): (k: nat)
    ensures k <= |s|
    ensures k < |s| ==> s[k] == c
    ensures forall j :: 0 <= j < k ==> s[j] != c
  {
    if s == [] then 0 else if s[0] == c then 0 else 1 + IndexOf(s[1..], c)
  }

  /** The pieces of `s` between occurrences of `sep`. */
  function Split(s: string, sep: char): (parts: seq<string>)
    ensures |parts| >= 1
    decreases |s|
  {
    var k := IndexOf(s, sep);
    if k == |s| then [s] else [s[..k]] + Split(s[k + 1..], sep)
  }

  /** The pieces joined with `sep` between them. */
  function Join(parts: seq<string>, sep: char): string
    requires |parts| >= 1
  {
    if |parts| == 1 then parts[0] else parts[0] + [sep] + Join(parts[1..], sep)
  }

  lemma IndexOfFirst(a: string, c: char, b: string)
    requires c !in a
    ensures IndexOf(a + [c] + b, c) == |a|
  {
    var s := a + [c] + b;
    assert s[|a|] == c;
  }

  /** Splitting undoes joining when no piece holds the separator. */
  lemma {:induction false} SplitJoin(parts: seq<string>, sep: char)
    requires |parts| >= 1
    requires forall j :: 0 <= j < |parts| ==> sep !in parts[j]
    ensures Split(Join(parts, sep), sep) == parts
  {
    var s := Join(parts, sep);
    if |parts| == 1 {
      assert IndexOf(s, sep) == |s|;
    } else {
      var rest := Join(parts[1..], sep);
      IndexOfFirst(parts[0], sep, rest);
      assert s == parts[0] + [sep] + rest;
      assert s[..|parts[0]|] == parts[0];
      assert s[|parts[0]| + 1..] == rest;
      SplitJoin(parts[1..], sep);
    }
  }

  /** The sample one line (without its newline) describes, if it is well formed. */
  function ParseLine(line: string): Option<Sample>
  {
    var f := Split(line, ',');
    if |f| == 5 && ParseBool(f[0]).Some? && ParseInt(f[1]).Some? && ParseInt(f[2]).Some?
       && ParseInt(f[3]).Some? && ParseInt(f[4]).Some?
    then Some(Sample(ParseBool(f[0]).value, ParseInt(f[1]).value, ParseInt(f[2]).value,
                     ParseInt(f[3]).value, ParseInt(f[4]).value))
    else None
  }

  /** Reads a whole file back; `None` when a line is malformed or the last one is unterminated. */
  function Parse(text: string): Option<seq<Sample>>
    decreases |text|
  {
    if text == [] then Some([])
    else
      var k := IndexOf(text, '\n');
      if k == |text| then None
      else
        match ParseLine(text[..k])
        case None => None
        case Some(s) =>
          match Parse(text[k + 1..])
          case None => None
          case Some(rest) => Some([s] + rest)
  }

  lemma IntTextChars(x: int)
    ensures ',' !in IntToText(x) && '\n' !in IntToText(x)
  {
  }

  lemma {:induction false} JoinAvoids(parts: seq<string>, sep: char, c: char)
    requires |parts| >= 1 && c != sep
    requires forall j :: 0 <= j < |parts| ==> c !in parts[j]
    ensures c !in Join(parts, sep)
  {
    if |parts| > 1 {
      JoinAvoids(parts[1..], sep, c);
    }
  }

  /** A sample's line, newline dropped, holds no newline and parses back to that sample. */
  lemma LineRoundTrip(s: Sample)
    ensures '\n' !in Join(Fields(s), ',')
    ensures ParseLine(Join(Fields(s), ',')) == Some(s)
  {
    var f := Fields(s);
    IntTextChars(s.delta); IntTextChars(s.inst); IntTextChars(s.cpu); IntTextChars(s.miss);
    assert forall j :: 0 <= j < 5 ==> ',' !in f[j] && '\n' !in f[j];
    JoinAvoids(f, ',', '\n');
    SplitJoin(f, ',');
    IntRoundTrip(s.delta); IntRoundTrip(s.inst); IntRoundTrip(s.cpu); IntRoundTrip(s.miss);
  }

  /** Parsing consumes one newline-terminated line and then the rest. */
  lemma ParseStep(line: string, rest: string)
    requires '\n' !in line
    ensures Parse(line + "\n" + rest) ==
      if ParseLine(line).Some? && Parse(rest).Some? then Some([ParseLine(line).value] + Parse(rest).value)
      else None
  {
    var t := line + "\n" + rest;
    IndexOfFirst(line, '\n', rest);
    assert t[..|line|] == line;
    assert t[|line| + 1..] == rest;
  }

  /** Reading the written file gives back exactly the samples, in order. */
  lemma {:induction false} TextRoundTrip(samples: seq<Sample>)
    ensures Parse(Text(samples)) == Some(samples)
  {
    if samples != [] {
      var line := Join(Fields(samples[0]), ',');
      LineRoundTrip(samples[0]);
      TextRoundTrip(samples[1..]);
      ParseStep(line, Text(samples[1..]));
      assert [samples[0]] + samples[1..] == samples;
    }
  }

  function CountChar(s: string, c: char): nat
  {
    if s == [] then 0 else (if s[0] == c then 1 else 0) + CountChar(s[1..], c)
  }

  lemma {:induction false} CountCharAppend(a: string, b: string, c: char)
    ensures CountChar(a + b, c) == CountChar(a, c) + CountChar(b, c)
  {
    if a != [] {
      assert (a + b)[1..] == a[1..] + b;
      CountCharAppend(a[1..], b, c);
    } else {
      assert a + b == b;
    }
  }

  /** The file has exactly one newline per sample. */
  lemma {:induction false} OneLinePerSample(samples: seq<Sample>)
    ensures CountChar(Text(samples), '\n') == |samples|
  {
    if samples != [] {
      var line := Join(Fields(samples[0]), ',');
      LineRoundTrip(samples[0]);
      CountCharAppend(line, "\n", '\n');
      CountCharAppend(Line(samples[0]), Text(samples[1..]), '\n');
      NoCharNoCount(line, '\n');
      OneLinePerSample(samples[1..]);
    }
  }

  lemma {:induction false} NoCharNoCount(s: string, c: char)
    requires c !in s
    ensures CountChar(s, c) == 0
  {
    if s != [] {
      assert c !in s[1..];
      NoCharNoCount(s[1..], c);
    }
  }

  lemma {:induction false} TextAppend(samples: seq<Sample>, s: Sample)
    ensures Text(samples + [s]) == Text(samples) + Line(s)
  {
    if samples == [] {
      assert [s][1..] == [];
    } else {
      assert (samples + [s])[1..] == samples[1..] + [s];
      TextAppend(samples[1..], s);
    }
  }

  /** `Writer::write`: streams one line per sample, in vector order. The file
      itself is not modelled; `text` is what the stream receives. */
  method Write(samples: seq<Sample>) returns (text: string)
    ensures text == Text(samples)
    ensures Parse(text) == Some(samples)
    ensures CountChar(text, '\n') == |samples|
  {
    text := "";
    for i := 0 to |samples|
      invariant text == Text(samples[..i])
    {
      var s := samples[i];
      var line := BoolToText(s.slow) + "," + IntToText(s.delta) + "," + IntToText(s.inst) + ","
                  + IntToText(s.cpu) + "," + IntToText(s.miss) + "\n";
      LineSpelledOut(s);
      text := text + line;
      TextAppend(samples[..i], s);
      assert samples[..i + 1] == samples[..i] + [s];
    }
    assert samples[..|samples|] == samples;
    TextRoundTrip(samples);
    OneLinePerSample(samples);
  }
}
