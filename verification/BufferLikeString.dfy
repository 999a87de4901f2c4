// The string of src/Network/Buffer.h that erases by moving two offsets, against
// an ordinary string.

module PlainString {
  import opened Arithmetic
  import opened Wrappers

  const NPOS: int := TWO64 - 1
  /** The longest std::string. */
  const MAX_SIZE: int := 0x7FFF_FFFF_FFFF_FFFF

  /** A size_t argument. */
  type Size = x: int | 0 <= x < TWO64

  /** The sum of two sizes, which wraps around. */
  function Sum(a: int, b: int): int {
    if a + b < TWO64 then a + b else a + b - TWO64
  }

  /**
   * Erasing from an ordinary string: nothing when the erasure is refused.  Unlike
   * std::string, a count past the end is refused at position 0, and so is the
   * position right behind the last character.
   */
  function Erased(v: string, pos: Size, n: Size): Option<string> {
    if pos == 0 then
      if n == NPOS then Some("") else if n > |v| then None else Some(v[n..])
    else if pos >= |v| then None
    else if n == NPOS || pos + n >= |v| then Some(v[..pos])
    else Some(v[..pos] + v[pos + n..])
  }

  function Inserted(v: string, pos: Size, s: string): Option<string> {
    if pos > |v| then None else Some(v[..pos] + s + v[pos..])
  }

  function Part(v: string, pos: Size, n: Size): Option<string> {
    if n == NPOS then (if pos >= |v| then None else Some(v[pos..]))
    else if pos + n > |v| then None
    else Some(v[pos..pos + n])
  }

  /** What erasing leaves: what was before the position and what was behind the erased part. */
  lemma ErasedIff(v: string, pos: Size, n: Size)
    requires |v| <= MAX_SIZE
    ensures Erased(v, pos, n).None? <==> if pos == 0 then |v| < n < NPOS else pos >= |v|
    ensures forall r :: Erased(v, pos, n) == Some(r) ==>
      && |r| == |v| - (if n == NPOS || pos + n > |v| then |v| - pos else n)
      && (forall i | 0 <= i < pos && i < |r| :: r[i] == v[i])
      && (forall i | pos <= i < |r| :: r[i] == v[i + n])
  {
  }

  lemma InsertedIff(v: string, pos: Size, s: string)
    ensures Inserted(v, pos, s).None? <==> pos > |v|
    ensures forall r :: Inserted(v, pos, s) == Some(r) ==>
      && |r| == |v| + |s| && r[pos..pos + |s|] == s
      && (forall i | 0 <= i < pos :: r[i] == v[i]) && (forall i | pos <= i < |v| :: r[i + |s|] == v[i])
  {
  }

  lemma PartIff(v: string, pos: Size, n: Size)
    requires |v| <= MAX_SIZE
    ensures Part(v, pos, n).None? <==> if n == NPOS then pos >= |v| else pos + n > |v|
    ensures forall r :: Part(v, pos, n) == Some(r) ==>
      |r| == (if n == NPOS then |v| - pos else n) && forall i | 0 <= i < |r| :: r[i] == v[pos + i]
  {
  }

  datatype Op = Erase(pos: Size, n: Size) | Append(text: string) | PushBack(c: char)
              | Insert(at: Size, text: string) | Clear

  /** One operation on an ordinary string; a refused one changes nothing. */
  function After(v: string, op: Op): string {
    match op
    case Erase(pos, n) => var r := Erased(v, pos, n); if r.Some? then r.value else v
    case Append(text) => v + text
    case PushBack(c) => v + [c]
    case Insert(at, text) => var r := Inserted(v, at, text); if r.Some? then r.value else v
    case Clear => ""
  }

  function AfterAll(v: string, ops: seq<Op>): string
    decreases |ops|
  {
    if ops == [] then v else AfterAll(After(v, ops[0]), ops[1..])
  }

  /** The arguments are in range: no sum wraps, and insertions are inside the string. */
  predicate InRange(v: string, op: Op) {
    match op
    case Erase(pos, n) => n == NPOS || pos + n < TWO64
    case Insert(at, _) => at <= |v|
    case _ => true
  }

  predicate AllInRange(v: string, ops: seq<Op>)
    decreases |ops|
  {
    ops == [] || (InRange(v, ops[0]) && AllInRange(After(v, ops[0]), ops[1..]))
  }

  function Added(op: Op): nat {
    match op
    case Append(text) => |text|
    case PushBack(_) => 1
    case Insert(_, text) => |text|
    case _ => 0
  }

  function TotalAdded(ops: seq<Op>): nat {
    if ops == [] then 0 else Added(ops[0]) + TotalAdded(ops[1..])
  }
}

module BufferLikeString {
  import opened Arithmetic
  import opened PlainString
  import opened Wrappers

  /** A part of a part. */
  lemma Narrowed(s: string, from: nat, to: nat, a: nat, b: nat)
    requires from <= to <= |s| && a <= b <= to - from
    ensures s[from..to][a..b] == s[from + a..from + b]
    ensures a == 0 ==> s[from..to][..b] == s[from..from + b]
    ensures b == to - from ==> s[from..to][a..] == s[from + a..to]
  {
    forall i | 0 <= i < b - a
      ensures s[from..to][a..b][i] == s[from + a..from + b][i]
    {
    }
  }

  lemma Between(a: string, b: string, c: string)
    ensures (a + b + c)[|a|..|a| + |b|] == b && (a + b + c)[|a| + |b|..] == c
  {
  }

  /** Erasing inside the part between from and to. */
  lemma MiddleErased(s: string, from: nat, to: nat, pos: nat, n: nat)
    requires from <= to <= |s| && pos + n <= to - from
    ensures var r := s[..from + pos] + s[from + pos + n..];
      r[from..to - n] == s[from..to][..pos] + s[from..to][pos + n..] && r[to - n..] == s[to..]
  {
    var v := s[from..to];
    Narrowed(s, from, to, 0, pos);
    Narrowed(s, from, to, pos + n, to - from);
    assert s[..from + pos] == s[..from] + v[..pos] && s[from + pos + n..] == v[pos + n..] + s[to..];
    Between(s[..from], v[..pos] + v[pos + n..], s[to..]);
    assert s[..from + pos] + s[from + pos + n..] == s[..from] + (v[..pos] + v[pos + n..]) + s[to..];
  }

  lemma MiddleInserted(s: string, from: nat, to: nat, pos: nat, t: string)
    requires from <= to <= |s| && pos <= to - from
    ensures var r := s[..from + pos] + t + s[from + pos..];
      r[from..to + |t|] == s[from..to][..pos] + t + s[from..to][pos..] && r[to + |t|..] == s[to..]
  {
    var v := s[from..to];
    Narrowed(s, from, to, 0, pos);
    Narrowed(s, from, to, pos, to - from);
    assert s[..from + pos] == s[..from] + v[..pos] && s[from + pos..] == v[pos..] + s[to..];
    Between(s[..from], v[..pos] + t + v[pos..], s[to..]);
    assert s[..from + pos] + t + s[from + pos..] == s[..from] + (v[..pos] + t + v[pos..]) + s[to..];
  }

  lemma MiddleWanted(v: string, pos: Size, n: Size)
    requires pos > 0 && n != NPOS && Sum(pos, n) < |v| <= MAX_SIZE
    ensures pos + n < TWO64 ==> Erased(v, pos, n) == Some(v[..pos] + v[pos + n..])
    ensures pos + n >= TWO64 ==> Erased(v, pos, n) == if pos < |v| then Some(v[..pos]) else None
  {
  }

  class BufferLikeString {
    var str: string
    var eraseHead: nat
    var eraseTail: nat

    /** The offsets lie inside the string, and the character behind the visible part is NUL. */
    ghost predicate Valid()
      reads this
    {
      && eraseHead + eraseTail <= |str| <= MAX_SIZE
      && (eraseTail > 0 ==> str[|str| - eraseTail] == '\0')
    }

    function Size(): (n: int)
      reads this
    {
      |str| - eraseTail - eraseHead
    }

    ghost function View(): string
      requires Valid()
      reads this
    {
      str[eraseHead..|str| - eraseTail]
    }

    /** data()[i]; the string ends in a NUL of its own. */
    function Data(i: nat): char
      requires eraseHead + i <= |str|
      reads this
    {
      if eraseHead + i < |str| then str[eraseHead + i] else '\0'
    }

    /** The C string property that readers of data() rely on. */
    lemma Terminated()
      requires Valid()
      ensures Size() == |View()| && Data(Size()) == '\0'
      ensures forall i: nat | i < Size() :: Data(i) == View()[i]
    {
    }

    constructor (text: string)
      requires |text| <= MAX_SIZE
      ensures Valid() && View() == text && str == text
    {
      str, eraseHead, eraseTail := text, 0, 0;
    }

    /** data()[i] = c; behind the last character only the NUL that is there may be written. */
    method Poke(i: nat, c: char)
      requires eraseHead + i < |str| || (eraseHead + i == |str| && c == '\0')
      modifies this`str
      ensures str == if eraseHead + i < |old(str)| then old(str)[eraseHead + i := c] else old(str)
    {
      if eraseHead + i < |str| {
        str := str[eraseHead + i := c];
      }
    }

    /** Whether pos + n wraps around to something inside the string. */
    predicate Wraps(pos: Size, n: Size)
      reads this
    {
      pos > 0 && n != NPOS && pos + n >= TWO64 && pos + n - TWO64 < Size()
    }

    /**
     * erase.  The sums pos + n and head + pos are size_t values.  When the first one
     * wraps, std::string erases at the second, up to the end of the underlying string,
     * and the tail offset stays.  The outcome is then that of an ordinary string only
     * if std::string refuses the index, or if nothing had been erased at the tail and
     * the position is inside the view.
     */
    method Erase(pos: Size, n: Size) returns (thrown: bool)
      requires Valid()
      modifies this
      ensures thrown ==> unchanged(this)
      ensures var want := Erased(old(View()), pos, n);
        (Valid() && (if thrown then want == None else want == Some(View())))
        <==> (old(!Wraps(pos, n)) || old(Sum(eraseHead, pos) > |str|) || old(eraseTail == 0 && pos < Size()))
      ensures |str| <= |old(str)|
    {
      if pos == 0 {
        if n != NPOS {
          if n > Size() {
            return true;
          }
          Narrowed(str, eraseHead, |str| - eraseTail, n, Size());
          eraseHead := eraseHead + n;
          Poke(Size(), '\0');
          return false;
        }
        eraseHead := 0;
        eraseTail := |str|;
        Poke(0, '\0');
        return false;
      }
      if n == NPOS || Sum(pos, n) >= Size() {
        if pos >= Size() {
          return true;
        }
        Narrowed(str, eraseHead, |str| - eraseTail, 0, pos);
        eraseTail := eraseTail + (Size() - pos);
        Poke(Size(), '\0');
        return false;
      }
      thrown := EraseMiddle(pos, n);
    }

    /** The last case of erase: pos + n, as a size_t, is inside the string. */
    method EraseMiddle(pos: Size, n: Size) returns (thrown: bool)
      requires Valid() && pos > 0 && n != NPOS && Sum(pos, n) < Size()
      modifies this`str
      ensures thrown ==> unchanged(this)
      ensures var want := Erased(old(View()), pos, n);
        (Valid() && (if thrown then want == None else want == Some(View())))
        <==> (pos + n < TWO64 || Sum(eraseHead, pos) > |old(str)| || (eraseTail == 0 && pos < old(Size())))
      ensures |str| <= |old(str)|
    {
      MiddleWanted(View(), pos, n);
      hide Erased;
      ghost var before := str;
      thrown := EraseUnderlying(Sum(eraseHead, pos), n);
      if pos + n < TWO64 {
        MiddleOut(before, pos, n);
      } else if !thrown && eraseHead + pos < TWO64 {
        assert str == before[..eraseHead + pos];
        CutOff(before, pos);
      }
    }

    /** std::string's erase on the underlying string: it takes fewer characters when there are not as many. */
    method EraseUnderlying(at: nat, n: Size) returns (thrown: bool)
      modifies this`str
      ensures thrown <==> at > |old(str)|
      ensures thrown ==> str == old(str)
      ensures !thrown ==> str == old(str)[..at] + old(str)[if at + n < |old(str)| then at + n else |old(str)|..]
    {
      if at > |str| {
        return true;
      }
      str := str[..at] + str[if at + n < |str| then at + n else |str|..];
      return false;
    }

    /** A string with its middle erased shows the two parts around it. */
    lemma MiddleOut(before: string, pos: nat, n: nat)
      requires eraseHead + pos + n <= |before| - eraseTail <= |before| <= MAX_SIZE
      requires eraseTail > 0 ==> before[|before| - eraseTail] == '\0'
      requires str == before[..eraseHead + pos] + before[eraseHead + pos + n..]
      ensures Valid()
      ensures var v := before[eraseHead..|before| - eraseTail]; View() == v[..pos] + v[pos + n..]
    {
      var to := |before| - eraseTail;
      MiddleErased(before, eraseHead, to, pos, n);
      if eraseTail > 0 {
        assert str[to - n..][0] == before[to..][0];
      }
    }

    /** A string cut off behind pos keeps the right characters only when nothing had been erased at the tail. */
    lemma CutOff(before: string, pos: nat)
      requires eraseHead + eraseTail <= |before| <= MAX_SIZE && eraseHead + pos <= |before|
      requires str == before[..eraseHead + pos]
      ensures eraseTail == 0 ==> Valid() && View() == before[eraseHead..|before| - eraseTail][..pos]
      ensures eraseTail > 0 && Valid() ==> |View()| < pos
    {
      Narrowed(before, eraseHead, |before|, 0, pos);
    }

    method MoveData()
      requires Valid()
      modifies this`str, this`eraseHead
      ensures Valid() && View() == old(View()) && eraseHead == 0 && |str| <= |old(str)|
    {
      if eraseHead > 0 {
        str := str[eraseHead..];
        eraseHead := 0;
      }
    }

    /** append; the capacity of the underlying string decides only whether the data is moved first. */
    method Append(data: string, capacity: nat)
      requires Valid() && |str| + |data| <= MAX_SIZE
      modifies this
      ensures Valid() && View() == old(View()) + data && |str| <= |old(str)| + |data|
    {
      if |data| == 0 {
        assert View() + data == View();
        return;
      }
      if eraseHead > capacity / 2 {
        MoveData();
      }
      if eraseTail == 0 {
        str := str + data;
        return;
      }
      str := str[..eraseHead + Size()] + data + str[eraseHead + Size()..];
    }

    method PushBack(c: char)
      requires Valid() && |str| < MAX_SIZE
      modifies this
      ensures Valid() && View() == old(View()) + [c] && |str| <= |old(str)| + 1
    {
      if eraseTail == 0 {
        str := str + [c];
        return;
      }
      ghost var v := View();
      Poke(Size(), c);
      assert str[eraseHead..|str| - eraseTail + 1] == v + [c];
      eraseTail := eraseTail - 1;
      Poke(Size(), '\0');
    }

    /**
     * insert.  The position is only checked against the underlying string: one past
     * the visible part but inside what the tail offset hides is not refused.
     */
    method Insert(pos: Size, s: string) returns (thrown: bool)
      requires Valid() && |str| + |s| <= MAX_SIZE
      modifies this`str
      ensures thrown ==> unchanged(this)
      ensures var want := Inserted(old(View()), pos, s);
        (Valid() && (if thrown then want == None else want == Some(View())))
        <==> (pos <= old(Size()) || Sum(eraseHead, pos) > |old(str)|)
      ensures |str| <= |old(str)| + |s|
    {
      var at := Sum(eraseHead, pos);
      if at > |str| {
        return true;
      }
      if pos <= Size() {
        MiddleInserted(str, eraseHead, |str| - eraseTail, pos, s);
      }
      str := str[..at] + s + str[at..];
      return false;
    }

    /** substr.  A wrapping pos + n that should have been refused reads into the hidden tail. */
    method Substr(pos: Size, n: Size) returns (r: Option<string>)
      requires Valid()
      ensures r == Part(View(), pos, n) <==>
        (n == NPOS || pos + n < TWO64 || pos + n - TWO64 > Size() || Sum(eraseHead, pos) > |str|)
    {
      if n == NPOS {
        if pos >= Size() {
          return None;
        }
        Narrowed(str, eraseHead, |str| - eraseTail, pos, Size());
        return Some(str[eraseHead + pos..eraseHead + Size()]);
      }
      if Sum(pos, n) > Size() {
        return None;
      }
      var at := Sum(eraseHead, pos);
      if at > |str| {
        return None;
      }
      if pos + n < TWO64 {
        Narrowed(str, eraseHead, |str| - eraseTail, pos, pos + n);
        assert at + n == |str| ==> str[at..at + n] == str[at..];
      }
      return Some(if at + n < |str| then str[at..at + n] else str[at..]);
    }

    method Clear()
      modifies this
      ensures Valid() && View() == "" && str == ""
    {
      eraseHead := 0;
      eraseTail := 0;
      str := "";
    }

    method Perform(op: Op, capacity: nat)
      requires Valid() && InRange(View(), op) && |str| + Added(op) <= MAX_SIZE
      modifies this
      ensures Valid() && View() == After(old(View()), op) && |str| <= |old(str)| + Added(op)
    {
      match op
      case Erase(pos, n) => var thrown := Erase(pos, n);
      case Append(text) => Append(text, capacity);
      case PushBack(c) => PushBack(c);
      case Insert(at, text) => var thrown := Insert(at, text);
      case Clear => Clear();
    }

    /** A whole run of operations in range leaves what the same run leaves of an ordinary string. */
    method Run(ops: seq<Op>, capacities: seq<nat>)
      requires Valid() && AllInRange(View(), ops) && |str| + TotalAdded(ops) <= MAX_SIZE
      requires |capacities| == |ops|
      modifies this
      ensures Valid() && View() == AfterAll(old(View()), ops)
    {
      hide InRange, After, Added;
      var i := 0;
      while i < |ops|
        invariant i <= |ops| && Valid()
        invariant AfterAll(View(), ops[i..]) == AfterAll(old(View()), ops)
        invariant AllInRange(View(), ops[i..]) && |str| + TotalAdded(ops[i..]) <= MAX_SIZE
      {
        assert ops[i..][1..] == ops[i + 1..];
        Perform(ops[i], capacities[i]);
        i := i + 1;
      }
    }
  }

  /** Inputs that fail: a count that wraps at the end of the string is taken where it should be refused. */
  method WrappingCounts() returns (b: BufferLikeString, thrown: bool, part: Option<string>)
    ensures fresh(b)
    ensures var want := Erased("ab", 2, TWO64 - 2);
      !b.Valid() || (if thrown then want != None else want != Some(b.View()))
    ensures part != Part("ab", 2, TWO64 - 2)
  {
    b := new BufferLikeString("ab");
    part := b.Substr(2, TWO64 - 2);
    thrown := b.Erase(2, TWO64 - 2);
  }

  /**
   * A wrapping index: with three characters erased at the head, position 2^64 - 1
   * means index 2 of the underlying string and is not refused.
   */
  method WrappingIndex() returns (b: BufferLikeString, thrown: bool)
    ensures fresh(b)
    ensures var want := Erased("defghijklm", TWO64 - 1, 5);
      !b.Valid() || (if thrown then want != None else want != Some(b.View()))
  {
    b := new BufferLikeString("abcdefghijklm");
    b.eraseHead := 3;
    assert b.View() == "defghijklm";
    thrown := b.Erase(TWO64 - 1, 5);
  }
}
