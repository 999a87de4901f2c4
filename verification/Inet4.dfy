// Dotted quads: src/Network/sockutil.cpp, inet_pton4. A text is accepted
// exactly if it is the canonical decimal rendering of four bytes.

module Inet4Spec {
  import opened Bytes
  import opened Wrappers

  predicate IsDigit(c: char) {
    '0' <= c <= '9'
  }

  function DigitValue(c: char): (d: nat)
    requires IsDigit(c)
    ensures d < 10
  {
    c as nat - '0' as nat
  }

  function DigitChar(d: nat): (c: char)
    requires d < 10
    ensures IsDigit(c) && DigitValue(c) == d
  {
    ('0' as nat + d) as char
  }

  // The digits in order stand for 0 to 9.
  lemma DigitsInOrder(d: nat)
    requires d < 10
    ensures DigitChar(d) == "0123456789"[d] && DigitValue("0123456789"[d]) == d
  {
  }

  // Decimal without leading zeros.
  function Decimal(n: nat): (s: string)
    ensures |s| > 0 && forall i :: 0 <= i < |s| ==> IsDigit(s[i])
  {
    if n < 10 then [DigitChar(n)] else Decimal(n / 10) + [DigitChar(n % 10)]
  }

  function Quad(b: seq<Byte>): string
    requires |b| == 4
  {
    Decimal(b[0]) + "." + Decimal(b[1]) + "." + Decimal(b[2]) + "." + Decimal(b[3])
  }

  // ---- The scanner of inet_pton4: finished octets, the octet being read, and
  // saw_digit ----

  datatype Scan = Scan(octets: seq<Byte>, current: Byte, sawDigit: bool)

  const START := Scan([], 0, false)

  function Count(s: Scan): nat {
    |s.octets| + if s.sawDigit then 1 else 0
  }

  function Step(s: Scan, ch: char): Option<Scan> {
    if IsDigit(ch) then
      var nw := s.current * 10 + DigitValue(ch);
      if s.sawDigit && s.current == 0 then None
      else if nw > 255 then None
      else if !s.sawDigit && Count(s) + 1 > 4 then None
      else Some(Scan(s.octets, nw, true))
    else if ch == '.' && s.sawDigit then
      if Count(s) == 4 then None else Some(Scan(s.octets + [s.current], 0, false))
    else None
  }

  function Run(s: Scan, text: string): Option<Scan> {
    if |text| == 0 then Some(s)
    else
      var before := Run(s, text[..|text| - 1]);
      if before.None? then None else Step(before.value, text[|text| - 1])
  }

  function Parse(text: string): Option<seq<Byte>> {
    var s := Run(START, text);
    if s.None? || Count(s.value) < 4 then None else Some(s.value.octets + [s.value.current])
  }

  // ---- The scanner against the rendering ----

  function Dotted(octets: seq<Byte>): string {
    if |octets| == 0 then "" else Dotted(octets[..|octets| - 1]) + Decimal(octets[|octets| - 1]) + "."
  }

  // The text that leads to a scanner state.
  function Consumed(s: Scan): string {
    Dotted(s.octets) + if s.sawDigit then Decimal(s.current) else ""
  }

  predicate Formed(s: Scan) {
    |s.octets| <= 3 && (!s.sawDigit ==> s.current == 0)
  }

  // A digit read behind the digits of v.
  lemma DecimalGrows(v: nat, ch: char)
    requires IsDigit(ch) && v > 0
    ensures Decimal(v * 10 + DigitValue(ch)) == Decimal(v) + [ch]
  {
    var nw := v * 10 + DigitValue(ch);
    assert nw / 10 == v && nw % 10 == DigitValue(ch);
  }

  lemma DecimalOfDigit(ch: char)
    requires IsDigit(ch)
    ensures Decimal(DigitValue(ch)) == [ch]
  {
  }

  lemma StepConsumes(s: Scan, ch: char)
    requires Formed(s) && Step(s, ch).Some?
    ensures var s' := Step(s, ch).value;
      Formed(s') && Consumed(s') == Consumed(s) + [ch]
  {
    var s' := Step(s, ch).value;
    if IsDigit(ch) {
      hide Dotted, Decimal;
      DecimalOfDigit(ch);
      if s.sawDigit {
        DecimalGrows(s.current, ch);
      }
    } else {
      hide Decimal;
      assert s'.octets[..|s.octets|] == s.octets;
    }
  }

  lemma StartConsumed()
    ensures Formed(START) && Consumed(START) == ""
  {
  }

  lemma {:induction false} RunSound(text: string)
    requires Run(START, text).Some?
    ensures var s := Run(START, text).value;
      Formed(s) && Consumed(s) == text
  {
    hide Step, Consumed, Formed;
    if |text| == 0 {
      StartConsumed();
    } else {
      var n := |text| - 1;
      RunSound(text[..n]);
      StepConsumes(Run(START, text[..n]).value, text[n]);
      assert text == text[..n] + [text[n]];
    }
  }

  lemma {:induction false} RunConcat(s: Scan, a: string, b: string)
    ensures Run(s, a + b) == if Run(s, a).None? then None else Run(Run(s, a).value, b)
  {
    if |b| == 0 {
      assert a + b == a;
    } else {
      var n := |b| - 1;
      RunConcat(s, a, b[..n]);
      assert (a + b)[..|a + b| - 1] == a + b[..n] && (a + b)[|a + b| - 1] == b[n];
    }
  }

  lemma RunOne(s: Scan, ch: char)
    ensures Run(s, [ch]) == Step(s, ch)
  {
    assert [ch][..0] == "";
  }

  // Reading the rendering of n puts n into the current octet.
  lemma {:induction false} RunDecimal(octets: seq<Byte>, n: Byte)
    requires |octets| <= 3
    ensures Run(Scan(octets, 0, false), Decimal(n)) == Some(Scan(octets, n, true))
  {
    if n < 10 {
      RunOne(Scan(octets, 0, false), DigitChar(n));
    } else {
      RunDecimal(octets, n / 10);
      RunConcat(Scan(octets, 0, false), Decimal(n / 10), [DigitChar(n % 10)]);
      RunOne(Scan(octets, n / 10, true), DigitChar(n % 10));
    }
  }

  lemma RunOctet(octets: seq<Byte>, n: Byte)
    requires |octets| <= 2
    ensures Run(Scan(octets, 0, false), Decimal(n) + ".") == Some(Scan(octets + [n], 0, false))
  {
    RunDecimal(octets, n);
    RunConcat(Scan(octets, 0, false), Decimal(n), ".");
    RunOne(Scan(octets, n, true), '.');
  }

  lemma ParseQuad(b: seq<Byte>)
    requires |b| == 4
    ensures Parse(Quad(b)) == Some(b)
  {
    hide Run, Step, Decimal;
    var p0, p1, p2, p3 := Decimal(b[0]) + ".", Decimal(b[1]) + ".", Decimal(b[2]) + ".", Decimal(b[3]);
    RunOctet([], b[0]);
    RunOctet([b[0]], b[1]);
    RunOctet([b[0], b[1]], b[2]);
    RunDecimal([b[0], b[1], b[2]], b[3]);
    RunConcat(START, p0, p1);
    RunConcat(START, p0 + p1, p2);
    RunConcat(START, p0 + p1 + p2, p3);
    assert [] + [b[0]] == [b[0]] && [b[0]] + [b[1]] == [b[0], b[1]];
    assert [b[0], b[1]] + [b[2]] == [b[0], b[1], b[2]];
    assert Quad(b) == p0 + p1 + p2 + p3;
    assert [b[0], b[1], b[2]] + [b[3]] == b;
  }

  // inet_pton4 accepts the rendering of b, with result b, and nothing else.
  lemma ParseIffQuad(text: string, b: seq<Byte>)
    requires |b| == 4
    ensures Parse(text) == Some(b) <==> text == Quad(b)
  {
    if Parse(text) == Some(b) {
      RunSound(text);
      var s := Run(START, text).value;
      var o := s.octets;
      assert |o| == 3 && s.sawDigit;
      assert b[..3] == o && b[3] == s.current;
      assert Dotted(o[..0]) == "";
      assert o[..1][..0] == o[..0] && Dotted(o[..1]) == Decimal(o[0]) + ".";
      assert o[..2][..1] == o[..1] && Dotted(o[..2]) == Dotted(o[..1]) + Decimal(o[1]) + ".";
      assert o[..3] == o && Dotted(o) == Dotted(o[..2]) + Decimal(o[2]) + ".";
    }
    if text == Quad(b) {
      ParseQuad(b);
    }
  }

  lemma ParseLength(text: string)
    requires Parse(text).Some?
    ensures |Parse(text).value| == 4
  {
    RunSound(text);
  }
}

module Inet4 {
  import opened Bytes
  import opened Wrappers
  import opened Inet4Spec

  method InetPton4(src: string) returns (dst: Option<seq<Byte>>)
    ensures dst == Parse(src)
    ensures dst.Some? ==> |dst.value| == 4 && src == Quad(dst.value)
    ensures dst.None? ==> forall b: seq<Byte> | |b| == 4 :: src != Quad(b)
  {
    var tmp := new Byte[4];
    var tp := 0;
    tmp[tp] := 0;
    var sawDigit, octets := false, 0;
    for i := 0 to |src|
      invariant tp < 4 && octets == tp + if sawDigit then 1 else 0
      invariant Run(START, src[..i]) == Some(Scan(tmp[..tp], tmp[tp], sawDigit))
    {
      var ch := src[i];
      ghost var before := Scan(tmp[..tp], tmp[tp], sawDigit);
      assert src[..i + 1][..i] == src[..i];
      assert Run(START, src[..i + 1]) == Step(before, ch);
      if Step(before, ch).None? {
        RunStuck(src, i + 1);
      }
      if IsDigit(ch) {
        var nw := tmp[tp] * 10 + DigitValue(ch);
        if sawDigit && tmp[tp] == 0 {
          return None;
        }
        if nw > 255 {
          return None;
        }
        tmp[tp] := nw;
        assert tmp[..tp] == before.octets;
        if !sawDigit {
          octets := octets + 1;
          if octets > 4 {
            return None;
          }
          sawDigit := true;
        }
      } else if ch == '.' && sawDigit {
        if octets == 4 {
          return None;
        }
        tp := tp + 1;
        tmp[tp] := 0;
        assert tmp[..tp] == before.octets + [before.current];
        sawDigit := false;
      } else {
        return None;
      }
    }
    assert src[..|src|] == src;
    Verdict(src);
    if octets < 4 {
      return None;
    }
    assert tmp[..3] + [tmp[3]] == tmp[..];
    return Some(tmp[..]);
  }

  // After a rejected character nothing can help.
  lemma {:induction false} RunStuck(src: string, n: nat)
    requires n <= |src| && Run(START, src[..n]).None?
    ensures Parse(src).None?
    ensures forall b: seq<Byte> | |b| == 4 :: src != Quad(b)
  {
    assert src == src[..n] + src[n..];
    RunConcat(START, src[..n], src[n..]);
    Verdict(src);
  }

  lemma Verdict(src: string)
    ensures Parse(src).Some? ==> |Parse(src).value| == 4 && src == Quad(Parse(src).value)
    ensures Parse(src).None? ==> forall b: seq<Byte> | |b| == 4 :: src != Quad(b)
  {
    if Parse(src).Some? {
      ParseLength(src);
      ParseIffQuad(src, Parse(src).value);
    } else {
      forall b: seq<Byte> | |b| == 4
        ensures src != Quad(b)
      {
        ParseIffQuad(src, b);
      }
    }
  }
}
