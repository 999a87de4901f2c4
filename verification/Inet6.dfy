// IPv6 texts: src/Network/sockutil.cpp, inet_pton6, against the text forms of
// section 2.2 of RFC 4291.

module Inet6Grammar {
  import opened Wrappers
  import opened Bytes
  import opened Inet4Spec

  predicate IsHex(c: char) {
    IsDigit(c) || 'a' <= c <= 'f' || 'A' <= c <= 'F'
  }

  function HexDigit(c: char): (d: nat)
    requires IsHex(c)
    ensures d < 16
  {
    if IsDigit(c) then DigitValue(c)
    else if 'a' <= c <= 'f' then 10 + (c as nat - 'a' as nat)
    else 10 + (c as nat - 'A' as nat)
  }

  // The digits in order stand for 0 to 15, in both cases of letters, and there are no others.
  lemma HexDigitsInOrder(d: nat, c: char)
    requires d < 16
    ensures IsHex("0123456789abcdef"[d]) && HexDigit("0123456789abcdef"[d]) == d
    ensures IsHex("0123456789ABCDEF"[d]) && HexDigit("0123456789ABCDEF"[d]) == d
    ensures IsHex(c) <==> c in "0123456789abcdefABCDEF"
  {
  }

  predicate AllHex(s: string) {
    forall i :: 0 <= i < |s| ==> IsHex(s[i])
  }

  function HexValue(s: string): nat
    requires AllHex(s)
  {
    if |s| == 0 then 0 else HexValue(s[..|s| - 1]) * 16 + HexDigit(s[|s| - 1])
  }

  // One to four hexadecimal digits.
  predicate IsGroup(s: string) {
    1 <= |s| <= 4 && AllHex(s)
  }

  lemma {:induction false} HexValueBound(s: string)
    requires AllHex(s) && |s| <= 4
    ensures HexValue(s) < 0x1_0000
    ensures |s| <= 3 ==> HexValue(s) < 0x1000
    ensures |s| <= 2 ==> HexValue(s) < 0x100
    ensures |s| <= 1 ==> HexValue(s) < 0x10
  {
    if |s| > 0 {
      HexValueBound(s[..|s| - 1]);
    }
  }

  function GroupBytes(s: string): (b: seq<Byte>)
    requires IsGroup(s)
    ensures |b| == 2
  {
    HexValueBound(s);
    [HexValue(s) / 256, HexValue(s) % 256]
  }

  // Four digits, the most significant first, are two bytes.
  lemma GroupOfFour(s: string)
    requires IsGroup(s) && |s| == 4
    ensures GroupBytes(s) == [HexDigit(s[0]) * 16 + HexDigit(s[1]), HexDigit(s[2]) * 16 + HexDigit(s[3])]
  {
    var a, b, c := s[..3], s[..2], s[..1];
    assert a[..2] == b && b[..1] == c && c[..0] == "";
    assert HexValue(c) == HexDigit(s[0]);
    assert HexValue(b) == HexValue(c) * 16 + HexDigit(s[1]);
    assert HexValue(a) == HexValue(b) * 16 + HexDigit(s[2]);
    assert HexValue(s) == HexValue(b) * 256 + HexDigit(s[2]) * 16 + HexDigit(s[3]);
    hide HexDigit, HexValue;
  }

  // Fewer digits stand for four with zeros in front.
  lemma {:induction false} LeadingZero(s: string)
    requires AllHex(s)
    ensures AllHex("0" + s) && HexValue("0" + s) == HexValue(s)
  {
    if s == "" {
      assert "0" + s == "0" && "0"[..0] == "";
    } else {
      var n := |s| - 1;
      LeadingZero(s[..n]);
      assert ("0" + s)[..n + 1] == "0" + s[..n] && ("0" + s)[n + 1] == s[n];
    }
  }

  // A piece of an address between colons; a dotted quad may only come last.
  predicate ItemsOk(items: seq<string>) {
    forall i :: 0 <= i < |items| ==>
      IsGroup(items[i]) || (i == |items| - 1 && Parse(items[i]).Some?)
  }

  function ItemBytes(item: string): seq<Byte>
    requires IsGroup(item) || Parse(item).Some?
  {
    if IsGroup(item) then GroupBytes(item) else Parse(item).value
  }

  function BytesOf(items: seq<string>): seq<Byte>
    requires ItemsOk(items)
  {
    if |items| == 0 then [] else ItemBytes(items[0]) + BytesOf(items[1..])
  }

  function Join(items: seq<string>): string {
    if |items| == 0 then ""
    else if |items| == 1 then items[0]
    else items[0] + ":" + Join(items[1..])
  }

  // `left` and `right` are what stands before and after `::`; without `::`
  // everything is in `right`.
  datatype Address = Address(left: seq<string>, gap: bool, right: seq<string>)

  predicate WellFormed(a: Address) {
    && (forall i :: 0 <= i < |a.left| ==> IsGroup(a.left[i]))
    && ItemsOk(a.right)
    && if a.gap then 2 * |a.left| + |BytesOf(a.right)| <= 14
       else a.left == [] && |BytesOf(a.right)| == 16
  }

  function Text(a: Address): string {
    if a.gap then Join(a.left) + "::" + Join(a.right) else Join(a.right)
  }

  function Value(a: Address): seq<Byte>
    requires WellFormed(a)
  {
    if a.gap then
      var l, r := BytesOf(a.left), BytesOf(a.right);
      l + Zeros(if |l| + |r| <= 16 then 16 - |l| - |r| else 0) + r
    else BytesOf(a.right)
  }
}

module Inet6Spec {
  import opened Wrappers
  import opened Bytes
  import opened Inet4Spec
  import opened Inet6Grammar

  datatype Parts = Parts(out: seq<Byte>, colon: Option<nat>)

  function ColonAt(s: string): (k: nat)
    ensures k <= |s| && forall i :: 0 <= i < k ==> s[i] != ':'
    ensures k < |s| ==> s[k] == ':'
  {
    if |s| == 0 || s[0] == ':' then 0 else 1 + ColonAt(s[1..])
  }

  // inet_pton6 token by token: `r` starts right behind a colon or at the start,
  // `out` has been written, `colon` is where `::` was seen.
  function Tokens(r: string, out: seq<Byte>, colon: Option<nat>): Option<Parts> {
    if r == "" then Some(Parts(out, colon))
    else if r[0] == ':' then
      if colon.Some? then None else Tokens(r[1..], out, Some(|out|))
    else if Parse(r).Some? then
      if |out| + 4 <= 16 then Some(Parts(out + Parse(r).value, colon)) else None
    else
      var e := ColonAt(r);
      if !IsGroup(r[..e]) || |out| + 2 > 16 || e + 1 == |r| then None
      else if e == |r| then Some(Parts(out + GroupBytes(r), colon))
      else Tokens(r[e + 1..], out + GroupBytes(r[..e]), colon)
  }

  function Expand(p: Parts): Option<seq<Byte>> {
    if p.colon.Some? && p.colon.value <= |p.out| then
      if |p.out| >= 16 then None
      else Some(p.out[..p.colon.value] + Zeros(16 - |p.out|) + p.out[p.colon.value..])
    else if |p.out| == 16 then Some(p.out) else None
  }

  function Start(src: string): Option<Parts> {
    if src != "" && src[0] == ':' then
      if |src| == 1 || src[1] != ':' then None else Tokens(src[1..], [], None)
    else Tokens(src, [], None)
  }

  function Parse6(src: string): Option<seq<Byte>> {
    var p := Start(src);
    if p.None? then None else Expand(p.value)
  }

  // ---- Facts about the pieces ----

  // A quad starts with at most three digits and a dot, and has no colon.
  lemma QuadShape(s: string) returns (dot: nat)
    requires Parse(s).Some?
    ensures 1 <= dot <= 3 && dot < |s| && s[dot] == '.' && forall i :: 0 <= i < dot ==> IsDigit(s[i])
    ensures forall i :: 0 <= i < |s| ==> s[i] != ':'
    ensures !IsGroup(s)
  {
    ParseLength(s);
    var b := Parse(s).value;
    ParseIffQuad(s, b);
    dot := |Decimal(b[0])|;
    DecimalShort(b[0]);
    assert s[dot] == '.';
    var d0, d1, d2, d3 := Decimal(b[0]), Decimal(b[1]), Decimal(b[2]), Decimal(b[3]);
    assert s == d0 + ("." + d1 + "." + d2 + "." + d3);
  }

  lemma DecimalShort(n: Byte)
    ensures |Decimal(n)| <= 3
  {
    if n >= 10 {
      assert n / 10 < 26;
      if n / 10 >= 10 {
        assert n / 10 / 10 < 10;
        assert |Decimal(n / 10)| == 2;
      }
    }
  }

  lemma ColonIs(s: string, k: nat)
    requires k <= |s| && (forall i :: 0 <= i < k ==> s[i] != ':') && (k < |s| ==> s[k] == ':')
    ensures ColonAt(s) == k
  {
  }
}

// inet_pton6 accepts exactly the texts of well-formed addresses.
module Inet6Proof {
  import opened Wrappers
  import opened Bytes
  import opened Inet4Spec
  import opened Inet6Grammar
  import opened Inet6Spec

  // The groups of `left`, a colon behind each.
  function Colonized(left: seq<string>): string {
    if |left| == 0 then "" else left[0] + ":" + Colonized(left[1..])
  }

  predicate AllGroups(items: seq<string>) {
    forall i :: 0 <= i < |items| ==> IsGroup(items[i])
  }

  lemma {:induction false} ColonizedIsJoin(left: seq<string>)
    requires |left| > 0
    ensures Colonized(left) == Join(left) + ":"
  {
    if |left| == 1 {
      assert Colonized(left[1..]) == "";
    } else {
      ColonizedIsJoin(left[1..]);
    }
  }

  lemma {:induction false} GroupsWidth(left: seq<string>)
    requires AllGroups(left)
    ensures ItemsOk(left) && |BytesOf(left)| == 2 * |left|
  {
    hide IsGroup, Parse;
    if |left| > 0 {
      assert forall i :: 0 <= i < |left[1..]| ==> left[1..][i] == left[i + 1];
      GroupsWidth(left[1..]);
    }
  }

  lemma BytesCons(item: string, items: seq<string>)
    requires ItemsOk(items) && (IsGroup(item) || (items == [] && Parse(item).Some?))
    ensures ItemsOk([item] + items) && BytesOf([item] + items) == ItemBytes(item) + BytesOf(items)
  {
    hide IsGroup, Parse, GroupBytes;
    assert ([item] + items)[1..] == items;
  }

  lemma TailOk(items: seq<string>)
    requires ItemsOk(items) && |items| > 0
    ensures IsGroup(items[0]) || Parse(items[0]).Some?
    ensures ItemsOk(items[1..]) && BytesOf(items) == ItemBytes(items[0]) + BytesOf(items[1..])
    ensures |items| > 1 ==> IsGroup(items[0]) && ItemBytes(items[0]) == GroupBytes(items[0])
  {
    hide IsGroup, Parse, GroupBytes;
    assert forall i :: 0 <= i < |items[1..]| ==> items[1..][i] == items[i + 1];
  }

  lemma {:induction false} BytesEven(items: seq<string>)
    requires ItemsOk(items)
    ensures |BytesOf(items)| % 2 == 0
  {
    if |items| > 0 {
      TailOk(items);
      BytesEven(items[1..]);
      if !IsGroup(items[0]) {
        ParseLength(items[0]);
      }
    }
  }

  lemma JoinNonEmpty(items: seq<string>)
    requires ItemsOk(items) && |items| > 0
    ensures Join(items) != "" && Join(items)[0] != ':'
  {
    if Parse(items[0]).Some? {
      var dot := QuadShape(items[0]);
    }
  }

  // A group followed by a colon is read as that group.
  lemma ReadGroup(group: string, rest: string, out: seq<Byte>, colon: Option<nat>)
    requires IsGroup(group) && rest != "" && |out| + 2 <= 16
    ensures Tokens(group + ":" + rest, out, colon) == Tokens(rest, out + GroupBytes(group), colon)
  {
    var r := group + ":" + rest;
    assert r[|group|] == ':';
    if Parse(r).Some? {
      var dot := QuadShape(r);
    }
    ColonIs(r, |group|);
    assert r[..|group|] == group && r[|group| + 1..] == rest;
  }

  lemma ReadLast(item: string, out: seq<Byte>, colon: Option<nat>)
    requires IsGroup(item) || Parse(item).Some?
    requires |out| + |ItemBytes(item)| <= 16
    ensures Tokens(item, out, colon) == Some(Parts(out + ItemBytes(item), colon))
  {
    hide GroupBytes, Parse;
    if Parse(item).Some? {
      var dot := QuadShape(item);
      ParseLength(item);
    } else {
      ColonIs(item, |item|);
      assert item[..|item|] == item;
    }
  }

  lemma {:induction false} ReadItems(items: seq<string>, out: seq<Byte>, colon: Option<nat>)
    requires ItemsOk(items) && |out| + |BytesOf(items)| <= 16
    ensures Tokens(Join(items), out, colon) == Some(Parts(out + BytesOf(items), colon))
    decreases |items|
  {
    hide Tokens, ItemBytes, GroupBytes, IsGroup, Parse, BytesOf, ItemsOk;
    if |items| == 0 {
      ReadNothing(out, colon);
    } else {
      TailOk(items);
      if |items| == 1 {
        NoBytes(items[1..]);
        ReadLast(items[0], out, colon);
        assert ItemBytes(items[0]) + [] == ItemBytes(items[0]);
      } else {
        JoinNonEmpty(items[1..]);
        ReadGroup(items[0], Join(items[1..]), out, colon);
        ReadItems(items[1..], out + GroupBytes(items[0]), colon);
        assert out + (GroupBytes(items[0]) + BytesOf(items[1..])) == out + GroupBytes(items[0]) + BytesOf(items[1..]);
      }
    }
  }

  lemma NoBytes(items: seq<string>)
    requires items == []
    ensures ItemsOk(items) && BytesOf(items) == []
  {
  }

  lemma ReadNothing(out: seq<Byte>, colon: Option<nat>)
    ensures ItemsOk([]) && BytesOf([]) == [] && Join([]) == ""
    ensures Tokens("", out, colon) == Some(Parts(out + [], colon))
  {
    assert out + [] == out;
  }

  lemma ReadColon(r: string, out: seq<Byte>)
    ensures Tokens(":" + r, out, None) == Tokens(r, out, Some(|out|))
  {
    assert (":" + r)[1..] == r;
  }

  lemma ColonizedCons(left: seq<string>, rest: string)
    requires |left| > 0
    ensures Colonized(left) + rest == left[0] + ":" + (Colonized(left[1..]) + rest)
  {
  }

  lemma ReadGapFirst(left: seq<string>, right: seq<string>, out: seq<Byte>)
    requires left == [] && ItemsOk(right) && |out| + |BytesOf(right)| <= 16
    ensures ItemsOk(left) && BytesOf(left) == []
    ensures Tokens(Colonized(left) + (":" + Join(right)), out, None)
            == Some(Parts(out + BytesOf(left) + BytesOf(right), Some(|out| + |BytesOf(left)|)))
  {
    hide Tokens, BytesOf, ItemsOk, Join;
    NoBytes(left);
    assert Colonized(left) + (":" + Join(right)) == ":" + Join(right);
    ReadColon(Join(right), out);
    ReadItems(right, out, Some(|out|));
    assert out + [] == out;
  }

  lemma {:induction false} ReadGap(left: seq<string>, right: seq<string>, out: seq<Byte>)
    requires AllGroups(left) && ItemsOk(right) && |out| + 2 * |left| + |BytesOf(right)| <= 16
    ensures ItemsOk(left) && |BytesOf(left)| == 2 * |left|
    ensures Tokens(Colonized(left) + (":" + Join(right)), out, None)
            == Some(Parts(out + BytesOf(left) + BytesOf(right), Some(|out| + |BytesOf(left)|)))
    decreases |left|
  {
    hide Tokens, ItemBytes, IsGroup, Parse, BytesOf, ItemsOk, Join;
    GroupsWidth(left);
    if |left| == 0 {
      ReadGapFirst(left, right, out);
    } else {
      hide Colonized;
      var rest := Colonized(left[1..]) + (":" + Join(right));
      ColonizedCons(left, ":" + Join(right));
      GroupsTail(left);
      ReadGroup(left[0], rest, out, None);
      ReadGap(left[1..], right, out + GroupBytes(left[0]));
      hide GroupBytes;
      assert out + (GroupBytes(left[0]) + BytesOf(left[1..])) == out + GroupBytes(left[0]) + BytesOf(left[1..]);
    }
  }

  lemma GroupsTail(left: seq<string>)
    requires AllGroups(left) && |left| > 0
    ensures AllGroups(left[1..]) && IsGroup(left[0]) && ItemsOk(left) && ItemsOk(left[1..])
    ensures BytesOf(left) == GroupBytes(left[0]) + BytesOf(left[1..])
  {
    hide IsGroup, Parse, GroupBytes;
    assert forall i :: 0 <= i < |left[1..]| ==> left[1..][i] == left[i + 1];
  }

  lemma ExpandGap(l: seq<Byte>, r: seq<Byte>)
    requires |l| + |r| < 16
    ensures Expand(Parts(l + r, Some(|l|))) == Some(l + Zeros(16 - |l| - |r|) + r)
  {
    assert (l + r)[..|l|] == l && (l + r)[|l|..] == r;
  }

  lemma TextStart(a: Address)
    requires WellFormed(a)
    ensures Start(Text(a)) ==
      if a.gap then Tokens(Colonized(a.left) + (":" + Join(a.right)), [], None) else Tokens(Join(a.right), [], None)
  {
    hide Tokens, ItemBytes, IsGroup, Parse, GroupBytes;
    var src := Text(a);
    if a.gap && |a.left| == 0 {
      assert src == "::" + Join(a.right);
      assert src[1..] == Colonized(a.left) + (":" + Join(a.right));
    } else if a.gap {
      ColonizedIsJoin(a.left);
      GroupsAreItems(a.left);
      JoinNonEmpty(a.left);
      assert src[0] == Join(a.left)[0];
      assert src == Colonized(a.left) + (":" + Join(a.right));
    } else {
      assert a.right != [];
      JoinNonEmpty(a.right);
    }
  }

  lemma CompleteGap(a: Address)
    requires WellFormed(a) && a.gap
    ensures Parse6(Text(a)) == Some(Value(a))
  {
    hide Tokens, Text, Start, ItemsOk, BytesOf, Expand, Colonized, Join, Zeros, IsGroup;
    TextStart(a);
    ReadGap(a.left, a.right, []);
    ExpandGap(BytesOf(a.left), BytesOf(a.right));
    assert [] + BytesOf(a.left) == BytesOf(a.left);
  }

  lemma CompletePlain(a: Address)
    requires WellFormed(a) && !a.gap
    ensures Parse6(Text(a)) == Some(Value(a))
  {
    hide Tokens, Text, Start, ItemsOk, BytesOf, Colonized, Join, Zeros, IsGroup;
    TextStart(a);
    ReadItems(a.right, [], None);
    assert [] + BytesOf(a.right) == BytesOf(a.right);
  }

  // Every well-formed address is accepted, with its value.
  lemma Complete(a: Address)
    requires WellFormed(a)
    ensures Parse6(Text(a)) == Some(Value(a))
  {
    hide WellFormed, Parse6, Text, Value;
    if a.gap {
      CompleteGap(a);
    } else {
      CompletePlain(a);
    }
  }

  lemma GroupsAreItems(left: seq<string>)
    requires AllGroups(left)
    ensures ItemsOk(left)
  {
  }

  // What a text is when it has been read as `left`, perhaps a gap, and `right`.
  ghost predicate ReadAs(r: string, out: seq<Byte>, colon: Option<nat>, a: Address) {
    && Tokens(r, out, colon).Some?
    && AllGroups(a.left) && ItemsOk(a.left) && ItemsOk(a.right)
    && var p := Tokens(r, out, colon).value;
    && |p.out| <= 16
    && if a.gap then
        && colon.None? && r == Colonized(a.left) + (":" + Join(a.right))
        && p == Parts(out + BytesOf(a.left) + BytesOf(a.right), Some(|out| + |BytesOf(a.left)|))
      else
        a.left == [] && r == Join(a.right) && p == Parts(out + BytesOf(a.right), colon)
  }

  lemma SoundColon(r: string, out: seq<Byte>, tail: Address)
    requires r != "" && r[0] == ':' && |out| <= 16
    requires ReadAs(r[1..], out, Some(|out|), tail)
    ensures ReadAs(r, out, None, Address([], true, tail.right))
  {
    hide ItemsOk, BytesOf, Join, Tokens;
    ReadColon(r[1..], out);
    NoBytes([]);
    assert r == ":" + r[1..];
    assert Colonized([]) + (":" + Join(tail.right)) == ":" + Join(tail.right);
    assert out + [] == out;
  }

  lemma SoundLast(item: string, out: seq<Byte>, colon: Option<nat>)
    requires IsGroup(item) || Parse(item).Some?
    requires |out| + |ItemBytes(item)| <= 16
    ensures ReadAs(item, out, colon, Address([], false, [item]))
  {
    ReadLast(item, out, colon);
    hide Tokens, IsGroup, Parse, GroupBytes;
    BytesCons(item, []);
    assert [item] + [] == [item] && ItemBytes(item) + [] == ItemBytes(item);
  }

  lemma SoundGroup(r: string, e: nat, out: seq<Byte>, colon: Option<nat>, tail: Address)
    requires e + 1 < |r| && r[e] == ':' && IsGroup(r[..e]) && |out| + 2 <= 16
    requires ReadAs(r[e + 1..], out + GroupBytes(r[..e]), colon, tail)
    ensures ReadAs(r, out, colon,
      if tail.gap then Address([r[..e]] + tail.left, true, tail.right) else Address([], false, [r[..e]] + tail.right))
  {
    hide Tokens, Parse, GroupBytes, IsGroup;
    var group := r[..e];
    var bytes := GroupBytes(group);
    assert r == group + ":" + r[e + 1..];
    ReadGroup(group, r[e + 1..], out, colon);
    if tail.gap {
      BytesCons(group, tail.left);
      hide ItemsOk, BytesOf, Join;
      ColonizedCons([group] + tail.left, ":" + Join(tail.right));
      assert ([group] + tail.left)[1..] == tail.left;
      assert out + (bytes + BytesOf(tail.left)) + BytesOf(tail.right)
          == out + bytes + BytesOf(tail.left) + BytesOf(tail.right);
    } else {
      BytesCons(group, tail.right);
      assert tail.right != [];
      hide ItemsOk, BytesOf;
      assert ([group] + tail.right)[1..] == tail.right;
      assert out + (bytes + BytesOf(tail.right)) == out + bytes + BytesOf(tail.right);
    }
  }

  // Whatever is accepted has been written as pieces of an address.
  lemma {:induction false} Sound(r: string, out: seq<Byte>, colon: Option<nat>) returns (a: Address)
    requires Tokens(r, out, colon).Some? && |out| <= 16
    ensures ReadAs(r, out, colon, a)
    ensures r != "" && r[0] == ':' ==> a.gap && a.left == []
    ensures r != "" && r[0] != ':' && a.gap ==> a.left != []
    decreases |r|
  {
    hide ReadAs, GroupBytes, Parse, IsGroup;
    if r == "" {
      a := Address([], false, []);
      assert ReadAs(r, out, colon, a) by {
        SoundEmpty(out, colon);
      }
    } else if r[0] == ':' {
      var tail := Sound(r[1..], out, Some(|out|));
      assert !tail.gap by {
        ColonSetOnce(r[1..], out, Some(|out|), tail);
      }
      SoundColon(r, out, tail);
      a := Address([], true, tail.right);
    } else if Parse(r).Some? {
      var dot := QuadShape(r);
      ParseLength(r);
      SoundLast(r, out, colon);
      a := Address([], false, [r]);
    } else {
      var e := ColonAt(r);
      if e == |r| {
        assert r[..e] == r;
        SoundLast(r, out, colon);
        a := Address([], false, [r]);
      } else {
        var tail := Sound(r[e + 1..], out + GroupBytes(r[..e]), colon);
        SoundGroup(r, e, out, colon, tail);
        a := if tail.gap then Address([r[..e]] + tail.left, true, tail.right)
          else Address([], false, [r[..e]] + tail.right);
      }
    }
  }

  lemma SoundEmpty(out: seq<Byte>, colon: Option<nat>)
    requires |out| <= 16
    ensures ReadAs("", out, colon, Address([], false, []))
  {
    ReadNothing(out, colon);
  }

  lemma ColonSetOnce(r: string, out: seq<Byte>, colon: Option<nat>, a: Address)
    requires ReadAs(r, out, colon, a) && colon.Some?
    ensures !a.gap
  {
  }

  lemma GapText(src: string, r: string, a: Address)
    requires a.gap && AllGroups(a.left) && r == Colonized(a.left) + (":" + Join(a.right))
    requires src == (if a.left == [] then ":" + r else r)
    ensures Text(a) == src
  {
    if a.left == [] {
      assert Text(a) == "::" + Join(a.right);
    } else {
      ColonizedIsJoin(a.left);
    }
  }

  lemma ExpandRoom(l: seq<Byte>, r: seq<Byte>)
    requires Expand(Parts([] + l + r, Some(|l|))).Some?
    ensures |l| + |r| < 16
  {
  }

  lemma GapFits(a: Address)
    requires a.gap && AllGroups(a.left) && ItemsOk(a.left) && ItemsOk(a.right)
    requires |BytesOf(a.left)| + |BytesOf(a.right)| < 16
    ensures WellFormed(a)
  {
    hide BytesOf, ItemsOk, IsGroup;
    GroupsWidth(a.left);
    BytesEven(a.right);
  }

  lemma Accepted(src: string) returns (a: Address)
    requires Parse6(src).Some?
    ensures WellFormed(a) && Text(a) == src
  {
    hide Tokens, ItemBytes, Parse, GroupBytes, BytesOf, ItemsOk, Colonized, Join, Expand, AllGroups;
    var r := if src != "" && src[0] == ':' then src[1..] else src;
    a := Sound(r, [], None);
    var p := Tokens(r, [], None).value;
    if a.gap {
      ExpandRoom(BytesOf(a.left), BytesOf(a.right));
      GapFits(a);
      assert src[0] == ':' ==> src == ":" + r;
      GapText(src, r, a);
    } else {
      PlainFits(p, a);
    }
  }

  lemma PlainFits(p: Parts, a: Address)
    requires !a.gap && a.left == [] && ItemsOk(a.right)
    requires p == Parts([] + BytesOf(a.right), None) && Expand(p).Some?
    ensures WellFormed(a)
  {
  }

  // The grammar, both ways.
  lemma ParseIffGrammar(src: string, b: seq<Byte>)
    ensures Parse6(src) == Some(b) <==> exists a: Address :: WellFormed(a) && Text(a) == src && Value(a) == b
  {
    hide Parse6, Value, WellFormed, Text;
    if Parse6(src) == Some(b) {
      var a := Accepted(src);
      Complete(a);
      assert WellFormed(a) && Text(a) == src && Value(a) == b;
    }
    if exists a: Address :: WellFormed(a) && Text(a) == src && Value(a) == b {
      var a: Address :| WellFormed(a) && Text(a) == src && Value(a) == b;
      Complete(a);
    }
  }
}

// The C function: one pass over the characters, then the shift in place.
module Inet6 {
  import opened Wrappers
  import opened Bytes
  import opened Inet4Spec
  import opened Inet6Grammar
  import opened Inet6Spec
  import Inet6Proof
  import Inet4

  lemma FiveDigits(r: string, out: seq<Byte>, colon: Option<nat>)
    requires |r| >= 5 && AllHex(r[..5])
    ensures Tokens(r, out, colon).None?
  {
    forall i | 0 <= i < 5
      ensures IsHex(r[i])
    {
      assert r[..5][i] == r[i];
    }
    if Parse(r).Some? {
      var dot := QuadShape(r);
    }
  }

  lemma GroupThenColon(r: string, k: nat, out: seq<Byte>, colon: Option<nat>)
    requires 1 <= k <= 4 && k < |r| && AllHex(r[..k]) && r[k] == ':'
    ensures Tokens(r, out, colon) ==
      if |out| + 2 > 16 || k + 1 == |r| then None else Tokens(r[k + 1..], out + GroupBytes(r[..k]), colon)
  {
    hide GroupBytes;
    assert r[..k][0] == r[0];
    forall i | 0 <= i < k
      ensures r[i] != ':'
    {
      assert r[..k][i] == r[i];
    }
    ColonIs(r, k);
    if Parse(r).Some? {
      var dot := QuadShape(r);
    }
  }

  lemma OtherCharacter(r: string, k: nat, out: seq<Byte>, colon: Option<nat>)
    requires k <= 4 && k < |r| && AllHex(r[..k]) && !IsHex(r[k]) && r[k] != ':'
    ensures Tokens(r, out, colon) ==
      if r[k] == '.' && |out| + 4 <= 16 && Parse(r).Some? then Some(Parts(out + Parse(r).value, colon)) else None
  {
    hide GroupBytes;
    forall i | 0 <= i < k
      ensures IsHex(r[i])
    {
      assert r[..k][i] == r[i];
    }
    if Parse(r).Some? {
      var dot := QuadShape(r);
      assert dot == k;
    } else {
      var e := ColonAt(r);
      assert r[..e][k] == r[k];
    }
  }

  lemma GroupAtEnd(r: string, out: seq<Byte>, colon: Option<nat>)
    requires IsGroup(r)
    ensures Tokens(r, out, colon) == if |out| + 2 > 16 then None else Some(Parts(out + GroupBytes(r), colon))
  {
    hide GroupBytes;
    if Parse(r).Some? {
      var dot := QuadShape(r);
    }
    ColonIs(r, |r|);
    assert r[..|r|] == r;
  }

  lemma HexSnoc(src: string, a: nat, b: nat)
    requires a <= b < |src| && AllHex(src[a..b]) && IsHex(src[b])
    ensures AllHex(src[a..b + 1]) && HexValue(src[a..b + 1]) == HexValue(src[a..b]) * 16 + HexDigit(src[b])
  {
    assert src[a..b + 1][..b - a] == src[a..b];
    assert src[a..b + 1] == src[a..b] + [src[b]];
  }

  function ColonOf(colonp: int): Option<nat> {
    if colonp < 0 then None else Some(colonp)
  }

  // The two bytes of a group.
  method Emit(tmp: array<Byte>, tp: nat, val: nat, ghost group: string)
    requires tmp.Length == 16 && tp + 2 <= 16 && tmp[tp..] == Zeros(16 - tp)
    requires IsGroup(group) && val == HexValue(group)
    modifies tmp
    ensures tmp[..tp + 2] == old(tmp[..tp]) + GroupBytes(group)
    ensures tmp[tp + 2..] == Zeros(14 - tp)
  {
    HexValueBound(group);
    assert tmp[tp..][2..] == tmp[tp + 2..] == Zeros(14 - tp);
    tmp[tp] := val / 256;
    tmp[tp + 1] := val % 256;
  }

  method EmitQuad(tmp: array<Byte>, tp: nat, quad: seq<Byte>)
    requires tmp.Length == 16 && tp + 4 <= 16 && tmp[tp..] == Zeros(16 - tp) && |quad| == 4
    modifies tmp
    ensures tmp[..tp + 4] == old(tmp[..tp]) + quad
    ensures tmp[tp + 4..] == Zeros(12 - tp)
  {
    assert tmp[tp..][4..] == tmp[tp + 4..] == Zeros(12 - tp);
    tmp[tp] := quad[0];
    tmp[tp + 1] := quad[1];
    tmp[tp + 2] := quad[2];
    tmp[tp + 3] := quad[3];
  }

  // The scanning loop of inet_pton6, from position `start`.
  method ScanPieces(src: string, start: nat, tmp: array<Byte>) returns (ok: bool, tp: nat, colonp: int)
    requires start <= |src| && tmp.Length == 16 && tmp[..] == Zeros(16)
    modifies tmp
    ensures !ok ==> Tokens(src[start..], [], None).None?
    ensures ok ==> tp <= 16 && colonp <= tp && Tokens(src[start..], [], None) == Some(Parts(tmp[..tp], ColonOf(colonp)))
    ensures ok ==> tmp[tp..] == Zeros(16 - tp)
  {
    hide Tokens, GroupBytes, HexValue, Parse, Zeros, Quad;
    tp, colonp := 0, -1;
    var p := start;
    ghost var whole := Tokens(src[start..], [], None);
    assert tmp[0..] == tmp[..] && tmp[..0] == [];
    var curtok, seen, val := p, 0, 0;
    NoDigits(src, p);
    while p < |src|
      invariant 0 <= curtok <= p <= |src| && seen == p - curtok <= 4
      invariant AllHex(src[curtok..p]) && val == HexValue(src[curtok..p])
      invariant tp <= 16 && colonp <= tp && tmp[tp..] == Zeros(16 - tp)
      invariant whole == Tokens(src[curtok..], tmp[..tp], ColonOf(colonp))
      decreases |src| - p
    {
      var ch := src[p];
      ghost var r := src[curtok..];
      assert r[..seen] == src[curtok..p] && r[seen] == ch;
      p := p + 1;
      if IsHex(ch) {
        HexSnoc(src, curtok, p - 1);
        val := val * 16 + HexDigit(ch);
        seen := seen + 1;
        if seen > 4 {
          assert r[..5] == src[curtok..p];
          FiveDigits(r, tmp[..tp], ColonOf(colonp));
          return false, tp, colonp;
        }
        continue;
      }
      if ch == ':' {
        ghost var group := src[curtok..p - 1];
        curtok := p;
        assert r[seen + 1..] == src[curtok..];
        NoDigits(src, p);
        if seen == 0 {
          NoDigits(src, p - 1);
          ColonFirst(r, tmp[..tp], ColonOf(colonp));
          if colonp >= 0 {
            return false, tp, colonp;
          }
          colonp := tp;
          continue;
        }
        GroupThenColon(r, seen, tmp[..tp], ColonOf(colonp));
        if p == |src| {
          return false, tp, colonp;
        }
        if tp + 2 > 16 {
          return false, tp, colonp;
        }
        Emit(tmp, tp, val, group);
        tp := tp + 2;
        seen, val := 0, 0;
        continue;
      }
      OtherCharacter(r, seen, tmp[..tp], ColonOf(colonp));
      if ch == '.' && tp + 4 <= 16 {
        var quad := Inet4.InetPton4(src[curtok..]);
        if quad.Some? {
          EmitQuad(tmp, tp, quad.value);
          return true, tp + 4, colonp;
        }
      }
      return false, tp, colonp;
    }
    assert src[curtok..p] == src[curtok..];
    if seen > 0 {
      GroupAtEnd(src[curtok..], tmp[..tp], ColonOf(colonp));
      if tp + 2 > 16 {
        return false, tp, colonp;
      }
      Emit(tmp, tp, val, src[curtok..]);
      tp := tp + 2;
    } else {
      NothingLeft(tmp[..tp], ColonOf(colonp));
    }
    return true, tp, colonp;
  }

  lemma NoDigits(src: string, p: nat)
    requires p <= |src|
    ensures AllHex(src[p..p]) && HexValue(src[p..p]) == 0
  {
  }

  lemma NothingLeft(out: seq<Byte>, colon: Option<nat>)
    ensures Tokens("", out, colon) == Some(Parts(out, colon))
  {
  }

  lemma ColonFirst(r: string, out: seq<Byte>, colon: Option<nat>)
    requires r != "" && r[0] == ':'
    ensures Tokens(r, out, colon) == if colon.Some? then None else Tokens(r[1..], out, Some(|out|))
  {
  }

  // The bytes from `::` on move to the end of the array, zeros take their place.
  method ShiftBack(tmp: array<Byte>, c: nat, tp: nat)
    requires tmp.Length == 16 && c <= tp < 16 && tmp[tp..] == Zeros(16 - tp)
    modifies tmp
    ensures tmp[..] == old(tmp[..c]) + Zeros(16 - tp) + old(tmp[c..tp])
  {
    ghost var t := tmp[..];
    assert forall k :: tp <= k < 16 ==> t[k] == t[tp..][k - tp];
    var n := tp - c;
    for i := 1 to n + 1
      invariant forall k :: 16 - (i - 1) <= k < 16 ==> tmp[k] == t[k - 16 + tp]
      invariant forall k :: tp - (i - 1) <= k < 16 - (i - 1) ==> tmp[k] == 0
      invariant forall k :: 0 <= k < tp - (i - 1) ==> tmp[k] == t[k]
    {
      tmp[16 - i] := tmp[c + n - i];
      tmp[c + n - i] := 0;
    }
  }

  // inet_pton6 up to the treatment of `::`.
  method ScanText(src: string, tmp: array<Byte>) returns (ok: bool, tp: nat, colonp: int)
    requires tmp.Length == 16 && tmp[..] == Zeros(16)
    modifies tmp
    ensures !ok ==> Start(src).None?
    ensures ok ==> tp <= 16 && colonp <= tp && Start(src) == Some(Parts(tmp[..tp], ColonOf(colonp)))
    ensures ok ==> tmp[tp..] == Zeros(16 - tp)
  {
    hide Tokens, Zeros;
    var p := 0;
    if src != "" && src[0] == ':' {
      p := 1;
      if |src| == 1 || src[1] != ':' {
        return false, 0, -1;
      }
    }
    assert src[0..] == src;
    ok, tp, colonp := ScanPieces(src, p, tmp);
  }

  method InetPton6(src: string) returns (dst: Option<seq<Byte>>)
    ensures dst == Parse6(src)
    ensures forall b: seq<Byte> ::
      dst == Some(b) <==> exists a: Address :: WellFormed(a) && Text(a) == src && Value(a) == b
  {
    hide Start, WellFormed, Text, Value;
    var tmp := new Byte[16](_ => 0);
    assert tmp[..] == Zeros(16);
    var ok, tp, colonp := ScanText(src, tmp);
    Grammar(src);
    if !ok {
      return None;
    }
    if colonp >= 0 {
      if tp == 16 {
        return None;
      }
      ShiftBack(tmp, colonp, tp);
      tp := 16;
    }
    if tp != 16 {
      return None;
    }
    assert tmp[..16] == tmp[..];
    return Some(tmp[..]);
  }

  lemma Grammar(src: string)
    ensures forall b: seq<Byte> ::
      Parse6(src) == Some(b) <==> exists a: Address :: WellFormed(a) && Text(a) == src && Value(a) == b
  {
    forall b: seq<Byte>
      ensures Parse6(src) == Some(b) <==> exists a: Address :: WellFormed(a) && Text(a) == src && Value(a) == b
    {
      Inet6Proof.ParseIffGrammar(src, b);
    }
  }
}
