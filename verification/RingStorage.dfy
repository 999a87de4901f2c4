// The GOP cache: src/Util/RingBuffer.h, class _RingStorage.

module GopCache {
  datatype Frame<T> = Frame(isKey: bool, data: T)

  type Gop<T> = seq<Frame<T>>

  const RING_MIN_SIZE := 32

  // The fields of _RingStorage as a value.
  datatype Cache<T> = Cache(started: bool, haveIdr: bool, size: int, maxSize: nat, maxGopSize: nat, gops: seq<Gop<T>>)

  function Flatten<T>(gops: seq<Gop<T>>): seq<Frame<T>> {
    if |gops| == 0 then [] else gops[0] + Flatten(gops[1..])
  }

  function NewCache<T>(maxSize: nat, maxGopSize: nat): Cache<T> {
    Cache(false, false, 0, if maxSize < RING_MIN_SIZE then RING_MIN_SIZE else maxSize, maxGopSize, [[]])
  }

  function PopFrontGop<T>(c: Cache<T>): Cache<T> {
    if |c.gops| == 0 then c
    else c.(size := c.size - |c.gops[0]|, gops := if |c.gops| == 1 then [[]] else c.gops[1..])
  }

  function ClearCache<T>(c: Cache<T>): (r: Cache<T>)
    ensures |r.gops| > 0
  {
    c.(size := 0, haveIdr := false, gops := [[]])
  }

  // The part of write that a key frame adds: a new GOP, and room for it.
  function OpenGop<T>(c: Cache<T>): Cache<T>
    requires |c.gops| > 0
  {
    var gops := if |c.gops[|c.gops| - 1]| != 0 then c.gops + [[]] else c.gops;
    var ready := c.(haveIdr := true, started := true, gops := gops);
    if |gops| > c.maxGopSize then PopFrontGop(ready) else ready
  }

  // The clean-up after an overflow: keep the newest GOP if it fits, else nothing.
  function Shrink<T>(c: Cache<T>): Cache<T>
    requires |c.gops| > 0
  {
    var last := c.gops[|c.gops| - 1];
    var kept := c.(size := c.size - |Flatten(c.gops[..|c.gops| - 1])|, gops := [last]);
    if kept.size > c.maxSize then ClearCache(kept) else kept
  }

  function Push<T>(gops: seq<Gop<T>>, f: Frame<T>): seq<Gop<T>>
    requires |gops| > 0
  {
    gops[..|gops| - 1] + [gops[|gops| - 1] + [f]]
  }

  function Write<T>(c: Cache<T>, f: Frame<T>): (r: Cache<T>)
    requires |c.gops| > 0
    ensures |r.gops| > 0
  {
    var ready := if f.isKey then OpenGop(c) else c;
    if !ready.haveIdr && ready.started then ready
    else
      var pushed := ready.(gops := Push(ready.gops, f), size := ready.size + 1);
      if pushed.size > pushed.maxSize then Shrink(pushed) else pushed
  }

  // ---- The invariant, relative to everything ever written ----

  ghost predicate IsSuffix<T>(s: seq<T>, whole: seq<T>) {
    |s| <= |whole| && whole[|whole| - |s|..] == s
  }

  ghost predicate KeyOnlyFirst<T>(gop: Gop<T>) {
    forall i :: 0 < i < |gop| ==> !gop[i].isKey
  }

  ghost predicate StartsWithKey<T>(gop: Gop<T>) {
    |gop| > 0 && gop[0].isKey && KeyOnlyFirst(gop)
  }

  ghost predicate NoKey<T>(gop: Gop<T>) {
    forall i :: 0 <= i < |gop| ==> !gop[i].isKey
  }

  // Every GOP is a key frame and the frames up to the next one. Only the first
  // may be headless, and then it holds what came before the first key frame; it
  // is empty only if it is alone.
  ghost predicate GopsFormed<T>(c: Cache<T>) {
    && |c.gops| > 0
    && (forall i :: 0 < i < |c.gops| ==> StartsWithKey(c.gops[i]))
    && (StartsWithKey(c.gops[0]) || NoKey(c.gops[0]))
    && (|c.gops| > 1 ==> c.gops[0] != [])
    && (c.haveIdr <==> StartsWithKey(c.gops[|c.gops| - 1]))
    && (c.haveIdr ==> c.started)
    && (c.started && !c.haveIdr ==> c.gops == [[]])
  }

  ghost predicate Inv<T>(c: Cache<T>, history: seq<Frame<T>>) {
    && c.maxSize >= RING_MIN_SIZE
    && GopsFormed(c)
    && |c.gops| <= (if c.maxGopSize == 0 then 1 else c.maxGopSize)
    && c.size == |Flatten(c.gops)| <= c.maxSize
    && IsSuffix(Flatten(c.gops), history)
    && (!c.started <==> NoKey(history))
  }

  lemma {:induction false} FlattenConcat<T>(a: seq<Gop<T>>, b: seq<Gop<T>>)
    ensures Flatten(a + b) == Flatten(a) + Flatten(b)
  {
    if |a| == 0 {
      assert a + b == b;
    } else {
      FlattenConcat(a[1..], b);
      assert (a + b)[1..] == a[1..] + b && (a + b)[0] == a[0];
      assert a[0] + (Flatten(a[1..]) + Flatten(b)) == (a[0] + Flatten(a[1..])) + Flatten(b);
    }
  }

  lemma FlattenOne<T>(g: Gop<T>)
    ensures Flatten([g]) == g
  {
    assert Flatten([g][1..]) == [];
  }

  lemma FlattenSplitsLast<T>(gops: seq<Gop<T>>)
    requires |gops| > 0
    ensures Flatten(gops) == Flatten(gops[..|gops| - 1]) + gops[|gops| - 1]
  {
    var n := |gops| - 1;
    assert gops == gops[..n] + [gops[n]];
    FlattenConcat(gops[..n], [gops[n]]);
    FlattenOne(gops[n]);
  }

  lemma FlattenPush<T>(gops: seq<Gop<T>>, f: Frame<T>)
    requires |gops| > 0
    ensures Flatten(Push(gops, f)) == Flatten(gops) + [f]
  {
    FlattenSplitsLast(gops);
    FlattenSplitsLast(Push(gops, f));
    assert Push(gops, f)[..|gops| - 1] == gops[..|gops| - 1];
  }

  lemma NewCacheInv<T>(maxSize: nat, maxGopSize: nat)
    ensures var c := NewCache<T>(maxSize, maxGopSize);
      && Inv(c, []) && c.maxGopSize == maxGopSize
      && (if maxSize >= 32 then c.maxSize == maxSize else c.maxSize == 32)
  {
    FlattenOne<T>([]);
  }

  lemma ClearPreserves<T>(c: Cache<T>, history: seq<Frame<T>>)
    requires Inv(c, history)
    ensures Inv(ClearCache(c), history) && Flatten(ClearCache(c).gops) == []
  {
    FlattenOne<T>([]);
  }

  // What a key frame finds after OpenGop: an empty GOP at the end.
  ghost predicate Opened<T>(c: Cache<T>, history: seq<Frame<T>>) {
    var n := |c.gops| - 1;
    && c.haveIdr && c.started && c.maxSize >= RING_MIN_SIZE
    && 0 <= n < (if c.maxGopSize == 0 then 1 else c.maxGopSize)
    && c.gops[n] == []
    && (forall i :: 0 < i < n ==> StartsWithKey(c.gops[i]))
    && (n > 0 ==> c.gops[0] != [] && (StartsWithKey(c.gops[0]) || NoKey(c.gops[0])))
    && c.size == |Flatten(c.gops)| <= c.maxSize
    && IsSuffix(Flatten(c.gops), history)
  }

  lemma OpenGopOpens<T>(c: Cache<T>, history: seq<Frame<T>>)
    requires Inv(c, history)
    ensures Opened(OpenGop(c), history)
  {
    var n := |c.gops|;
    if |c.gops[n - 1]| != 0 {
      var wide := c.(haveIdr := true, started := true, gops := c.gops + [[]]);
      FlattenConcat(c.gops, [[]]);
      FlattenOne<T>([]);
      if |wide.gops| > c.maxGopSize {
        PopFrontOpens(wide, history);
      }
    } else {
      assert n == 1 && c.gops == [[]];
      FlattenOne<T>([]);
    }
  }

  lemma PopFrontOpens<T>(c: Cache<T>, history: seq<Frame<T>>)
    requires c.haveIdr && c.started && c.maxSize >= RING_MIN_SIZE
    requires 2 <= |c.gops| <= 1 + (if c.maxGopSize == 0 then 1 else c.maxGopSize)
    requires c.gops[|c.gops| - 1] == []
    requires forall i :: 0 < i < |c.gops| - 1 ==> StartsWithKey(c.gops[i])
    requires c.size == |Flatten(c.gops)| <= c.maxSize && IsSuffix(Flatten(c.gops), history)
    ensures Opened(PopFrontGop(c), history)
  {
    var rest := c.gops[1..];
    assert Flatten(c.gops) == c.gops[0] + Flatten(rest);
    assert forall i :: 0 <= i < |rest| - 1 ==> rest[i] == c.gops[i + 1];
  }

  lemma PushInto<T>(c: Cache<T>, f: Frame<T>, history: seq<Frame<T>>)
    requires |c.gops| > 0 && IsSuffix(Flatten(c.gops), history)
    ensures IsSuffix(Flatten(Push(c.gops, f)), history + [f])
    ensures |Flatten(Push(c.gops, f))| == |Flatten(c.gops)| + 1
  {
    FlattenPush(c.gops, f);
  }

  // Push keeps the GOPs formed, whether it starts a GOP or continues one.
  ghost predicate Pushed<T>(c: Cache<T>, history: seq<Frame<T>>) {
    && c.maxSize >= RING_MIN_SIZE
    && GopsFormed(c)
    && |c.gops| <= (if c.maxGopSize == 0 then 1 else c.maxGopSize)
    && c.size == |Flatten(c.gops)|
    && IsSuffix(Flatten(c.gops), history)
    && (!c.started <==> NoKey(history))
  }

  lemma ShrinkRestores<T>(c: Cache<T>, history: seq<Frame<T>>)
    requires Pushed(c, history)
    ensures Inv(if c.size > c.maxSize then Shrink(c) else c, history)
  {
    var last := c.gops[|c.gops| - 1];
    FlattenSplitsLast(c.gops);
    FlattenOne(last);
    FlattenOne<T>([]);
  }

  lemma NoKeySnoc<T>(history: seq<Frame<T>>, f: Frame<T>)
    ensures NoKey(history + [f]) <==> NoKey(history) && !f.isKey
  {
    assert (history + [f])[|history|] == f;
    forall i | 0 <= i < |history|
      ensures history[i] == (history + [f])[i]
    {
    }
  }

  // The key frame fills the empty GOP at the end.
  lemma PushIntoOpened<T>(c: Cache<T>, f: Frame<T>, history: seq<Frame<T>>)
    requires Opened(c, history) && f.isKey
    ensures Pushed(c.(gops := Push(c.gops, f), size := c.size + 1), history + [f])
  {
    PushInto(c, f, history);
    NoKeySnoc(history, f);
    var n := |c.gops| - 1;
    var gops := Push(c.gops, f);
    hide Flatten, IsSuffix;
    assert gops[n] == [f];
    assert forall i :: 0 <= i < n ==> gops[i] == c.gops[i];
    assert StartsWithKey(gops[n]);
  }

  lemma PushAfterKey<T>(c: Cache<T>, f: Frame<T>, history: seq<Frame<T>>)
    requires Inv(c, history) && f.isKey
    ensures var ready := OpenGop(c);
      Pushed(ready.(gops := Push(ready.gops, f), size := ready.size + 1), history + [f])
  {
    hide OpenGop, Opened, Pushed, Push;
    OpenGopOpens(c, history);
    PushIntoOpened(OpenGop(c), f, history);
  }

  lemma PushNonKey<T>(c: Cache<T>, f: Frame<T>, history: seq<Frame<T>>)
    requires Inv(c, history) && !f.isKey && (c.haveIdr || !c.started)
    ensures Pushed(c.(gops := Push(c.gops, f), size := c.size + 1), history + [f])
  {
    PushInto(c, f, history);
    NoKeySnoc(history, f);
    var n := |c.gops| - 1;
    var gops := Push(c.gops, f);
    assert forall i :: 0 <= i < n ==> gops[i] == c.gops[i];
    assert gops[n] == c.gops[n] + [f];
    if !c.started && n == 0 {
      assert NoKey(gops[0]);
    }
  }

  lemma DropPreserves<T>(c: Cache<T>, f: Frame<T>, history: seq<Frame<T>>)
    requires Inv(c, history) && !f.isKey && !c.haveIdr && c.started
    ensures Inv(c, history + [f])
  {
    NoKeySnoc(history, f);
    FlattenOne<T>([]);
  }

  lemma WritePreserves<T>(c: Cache<T>, f: Frame<T>, history: seq<Frame<T>>)
    requires Inv(c, history)
    ensures Inv(Write(c, f), history + [f])
  {
    hide OpenGop, Push, Shrink, Flatten, IsSuffix, NoKey;
    if f.isKey {
      PushAfterKey(c, f, history);
      OpenGopOpens(c, history);
      var ready := OpenGop(c);
      ShrinkRestores(ready.(gops := Push(ready.gops, f), size := ready.size + 1), history + [f]);
    } else if c.haveIdr || !c.started {
      PushNonKey(c, f, history);
      ShrinkRestores(c.(gops := Push(c.gops, f), size := c.size + 1), history + [f]);
    } else {
      DropPreserves(c, f, history);
    }
  }

  // ---- How two caches of the same history can differ ----

  // GOPs that can be told apart: none is empty, and a key frame starts a new one.
  ghost predicate Separate<T>(gops: seq<Gop<T>>) {
    forall i :: 0 <= i < |gops| ==> gops[i] != [] && KeyOnlyFirst(gops[i]) && (i > 0 ==> gops[i][0].isKey)
  }

  lemma FirstGopLength<T>(a: seq<Gop<T>>, b: seq<Gop<T>>)
    requires Separate(a) && Separate(b) && |a| > 0 && |b| > 0 && Flatten(a) == Flatten(b)
    ensures |a[0]| <= |b[0]|
  {
    if |b[0]| < |a[0]| {
      var k := |b[0]|;
      assert Flatten(a)[k] == a[0][k] && !a[0][k].isKey;
      assert Flatten(b) == b[0] + Flatten(b[1..]);
      assert |b| > 1 && Flatten(b)[k] == b[1][0] by {
        if |b| > 1 {
          assert Flatten(b[1..]) == b[1] + Flatten(b[1..][1..]);
        }
      }
      assert false;
    }
  }

  // The frames determine how they fall into GOPs.
  lemma {:induction false} GopsAreUnique<T>(a: seq<Gop<T>>, b: seq<Gop<T>>)
    requires Separate(a) && Separate(b) && Flatten(a) == Flatten(b)
    ensures a == b
  {
    if |a| > 0 && |b| > 0 {
      FirstGopLength(a, b);
      FirstGopLength(b, a);
      assert a[0] == Flatten(a)[..|a[0]|] == Flatten(b)[..|b[0]|] == b[0];
      assert Flatten(a[1..]) == Flatten(a)[|a[0]|..] == Flatten(b[1..]);
      GopsAreUnique(a[1..], b[1..]);
      assert a == [a[0]] + a[1..] && b == [b[0]] + b[1..];
    }
  }

  lemma FormedIsSeparate<T>(c: Cache<T>)
    requires GopsFormed(c)
    ensures if c.gops == [[]] then Flatten(c.gops) == [] else Separate(c.gops) && Flatten(c.gops) != []
  {
    if c.gops == [[]] {
      FlattenOne<T>([]);
    } else {
      assert c.gops[0] != [];
      assert Flatten(c.gops) == c.gops[0] + Flatten(c.gops[1..]);
    }
  }

  // Two caches with the same limits that have seen the same history are equal if
  // and only if they hold the same number of frames.
  lemma EqualIffSameSize<T>(a: Cache<T>, b: Cache<T>, history: seq<Frame<T>>)
    requires Inv(a, history) && Inv(b, history)
    requires a.maxSize == b.maxSize && a.maxGopSize == b.maxGopSize
    ensures a == b <==> a.size == b.size
  {
    if a.size == b.size {
      var n := |history| - a.size;
      assert Flatten(a.gops) == history[n..] == Flatten(b.gops);
      FormedIsSeparate(a);
      FormedIsSeparate(b);
      if a.gops != [[]] && b.gops != [[]] {
        GopsAreUnique(a.gops, b.gops);
      }
      assert a.gops == b.gops;
    }
  }

  lemma KeyFrameSize<T>(c: Cache<T>, f: Frame<T>, history: seq<Frame<T>>)
    requires Inv(c, history) && f.isKey && c.maxGopSize <= 1
    ensures Write(c, f).size == 1
  {
    OpenGopOpens(c, history);
    var ready := OpenGop(c);
    assert ready.gops == [[]];
    FlattenOne<T>([]);
  }

  lemma WriteKeepsLimits<T>(c: Cache<T>, f: Frame<T>)
    requires |c.gops| > 0
    ensures Write(c, f).maxSize == c.maxSize && Write(c, f).maxGopSize == c.maxGopSize
  {
    assert OpenGop(c).maxSize == c.maxSize && OpenGop(c).maxGopSize == c.maxGopSize;
    hide Flatten, Push, OpenGop;
  }

  // With one GOP, a key frame makes any two such caches equal.
  lemma KeyFrameEqualizes<T>(a: Cache<T>, b: Cache<T>, f: Frame<T>, history: seq<Frame<T>>)
    requires Inv(a, history) && Inv(b, history) && f.isKey
    requires a.maxSize == b.maxSize && a.maxGopSize == b.maxGopSize <= 1
    ensures Write(a, f) == Write(b, f)
  {
    KeyFrameSize(a, f, history);
    KeyFrameSize(b, f, history);
    WritePreserves(a, f, history);
    WritePreserves(b, f, history);
    WriteKeepsLimits(a, f);
    WriteKeepsLimits(b, f);
    hide Write;
    EqualIffSameSize(Write(a, f), Write(b, f), history + [f]);
  }

  // With the default of one GOP, what a late reader is given starts with a key
  // frame as soon as any key frame has been written.
  lemma SingleGopStartsWithKey<T>(c: Cache<T>, history: seq<Frame<T>>)
    requires Inv(c, history) && c.maxGopSize <= 1 && c.started && c.size > 0
    ensures Flatten(c.gops)[0].isKey
  {
    FlattenOne(c.gops[0]);
    assert c.gops == [c.gops[0]];
    FlattenOne<T>([]);
  }

  // While a key frame is cached, the newest GOP is complete: it is everything
  // written from the most recent key frame on.
  lemma CurrentGopIsWhole<T>(c: Cache<T>, history: seq<Frame<T>>) returns (k: nat)
    requires Inv(c, history) && c.haveIdr
    ensures k < |history| && history[k].isKey && NoKey(history[k + 1..])
    ensures history[k..] == c.gops[|c.gops| - 1]
  {
    var last := c.gops[|c.gops| - 1];
    FlattenSplitsLast(c.gops);
    k := |history| - |last|;
    var flat := Flatten(c.gops);
    assert history[k..] == flat[|flat| - |last|..] == last;
    assert history[k] == last[0];
    assert history[k + 1..] == last[1..];
  }

  // ---- What a cache must hold ----

  function Newest<T>(c: Cache<T>): Gop<T>
    requires |c.gops| > 0
  {
    c.gops[|c.gops| - 1]
  }

  // A key frame is always cached, as the start of the newest GOP.
  lemma KeyFrameOpens<T>(c: Cache<T>, f: Frame<T>, history: seq<Frame<T>>)
    requires Inv(c, history) && f.isKey
    ensures Write(c, f).haveIdr && Newest(Write(c, f)) == [f]
  {
    OpenGopOpens(c, history);
    var ready := OpenGop(c);
    assert ready.gops[|ready.gops| - 1] == [];
    NewestAfterPush(ready, f);
    assert [] + [f] == [f];
  }

  // A cache after a push and the clean-up: everything is kept if it fits, else the
  // newest GOP if it fits alone, else nothing.
  lemma NewestAfterPush<T>(c: Cache<T>, f: Frame<T>)
    requires |c.gops| > 0 && c.size == |Flatten(c.gops)| <= c.maxSize
    ensures var pushed := c.(gops := Push(c.gops, f), size := c.size + 1);
      var after := if pushed.size > pushed.maxSize then Shrink(pushed) else pushed;
      var gop := Newest(c) + [f];
      && |after.gops| > 0
      && (|gop| <= c.maxSize ==> after.haveIdr == c.haveIdr && Newest(after) == gop)
      && (|gop| > c.maxSize ==> after == ClearCache(pushed))
      && after.gops == Fitting(c.gops[..|c.gops| - 1], gop, c.maxSize)
  {
    var gops := Push(c.gops, f);
    FlattenPush(c.gops, f);
    FlattenSplitsLast(gops);
    assert gops[..|gops| - 1] == c.gops[..|c.gops| - 1];
  }

  // Older GOPs and a current one, as far as they fit.
  function Fitting<T>(older: seq<Gop<T>>, gop: Gop<T>, maxSize: nat): seq<Gop<T>> {
    if |Flatten(older)| + |gop| <= maxSize then older + [gop] else if |gop| <= maxSize then [gop] else [[]]
  }

  // Any other frame continues the newest GOP, until that outgrows the whole cache; the
  // older GOPs stay as long as all of them fit.
  lemma FrameContinues<T>(c: Cache<T>, f: Frame<T>, history: seq<Frame<T>>)
    requires Inv(c, history) && !f.isKey && (c.haveIdr || !c.started)
    ensures var gop := Newest(c) + [f];
      && (c.haveIdr && |gop| <= c.maxSize ==> Write(c, f).haveIdr && Newest(Write(c, f)) == gop)
      && (|gop| > c.maxSize ==> !Write(c, f).haveIdr)
      && Write(c, f).gops == Fitting(c.gops[..|c.gops| - 1], gop, c.maxSize)
  {
    hide Inv, Flatten, Push, Shrink, Fitting;
    SizesOf(c, history);
    NewestAfterPush(c, f);
  }

  lemma SizesOf<T>(c: Cache<T>, history: seq<Frame<T>>)
    requires Inv(c, history)
    ensures |c.gops| > 0 && c.size == |Flatten(c.gops)| <= c.maxSize
  {
  }

  // The GOPs that a key frame leaves: all of them, unless there are as many as allowed.
  function Older<T>(c: Cache<T>): seq<Gop<T>>
    requires |c.gops| > 0
  {
    if |c.gops| < c.maxGopSize then c.gops else c.gops[1..]
  }

  lemma OpenedGops<T>(c: Cache<T>)
    requires |c.gops| > 0 && Newest(c) != []
    ensures OpenGop(c).gops == Older(c) + [[]]
  {
    assert (c.gops + [[]])[1..] == c.gops[1..] + [[]];
  }

  lemma NewestNotEmpty<T>(c: Cache<T>, history: seq<Frame<T>>)
    requires Inv(c, history) && c.size > 0
    ensures |c.gops| > 0 && Newest(c) != []
  {
    FlattenOne<T>([]);
    assert |c.gops| == 1 ==> c.gops == [Newest(c)];
    hide Flatten;
  }

  lemma KeyFrameKeepsOlder<T>(c: Cache<T>, f: Frame<T>, history: seq<Frame<T>>)
    requires Inv(c, history) && f.isKey && c.size > 0
    ensures |c.gops| > 0 && Write(c, f).gops == Fitting(Older(c), [f], c.maxSize)
  {
    hide Inv, GopsFormed, Flatten, OpenGop, Fitting, Older, Shrink, Push;
    NewestNotEmpty(c, history);
    OpenedFits(c, history);
    OpenedGops(c);
    var all := Older(c) + [[]];
    assert [] + [f] == [f] && all[..|all| - 1] == Older(c);
    NewestAfterPush(OpenGop(c), f);
  }

  lemma OpenedFits<T>(c: Cache<T>, history: seq<Frame<T>>)
    requires Inv(c, history)
    ensures |c.gops| > 0
    ensures var ready := OpenGop(c);
      && ready.haveIdr && ready.maxSize == c.maxSize && |ready.gops| > 0
      && Newest(ready) == [] && ready.size == |Flatten(ready.gops)| <= ready.maxSize
  {
    OpenGopOpens(c, history);
    hide Flatten, IsSuffix, StartsWithKey, NoKey;
  }

  // What happens to a cache: a write, or a clearCache.
  datatype Op<T> = Put(frame: Frame<T>) | Clear

  function AfterOps<T>(c: Cache<T>, ops: seq<Op<T>>): (r: Cache<T>)
    requires |c.gops| > 0
    ensures |r.gops| > 0
  {
    if |ops| == 0 then c
    else
      var before := AfterOps(c, ops[..|ops| - 1]);
      match ops[|ops| - 1]
      case Put(f) => Write(before, f)
      case Clear => ClearCache(before)
  }

  lemma OpsSnoc<T>(c: Cache<T>, ops: seq<Op<T>>, op: Op<T>)
    requires |c.gops| > 0
    ensures AfterOps(c, ops + [op])
         == match op case Put(f) => Write(AfterOps(c, ops), f) case Clear => ClearCache(AfterOps(c, ops))
  {
    hide Write, ClearCache;
    assert (ops + [op])[..|ops|] == ops;
  }

  function Written<T>(ops: seq<Op<T>>): seq<Frame<T>> {
    if |ops| == 0 then []
    else Written(ops[..|ops| - 1]) + (if ops[|ops| - 1].Put? then [ops[|ops| - 1].frame] else [])
  }

  // The frames from the most recent key frame on; none after a clear without a key frame.
  function CurrentGop<T>(ops: seq<Op<T>>): Gop<T> {
    if |ops| == 0 then []
    else
      var before := CurrentGop(ops[..|ops| - 1]);
      match ops[|ops| - 1]
      case Put(f) => if f.isKey then [f] else if before == [] then [] else before + [f]
      case Clear => []
  }

  // After any writes and clears, the current GOP is cached, whole and as the newest
  // one, if and only if there is one and it is no longer than the cache.
  lemma {:induction false} CurrentGopIsCached<T>(maxSize: nat, maxGopSize: nat, ops: seq<Op<T>>)
    ensures var c, gop := AfterOps(NewCache(maxSize, maxGopSize), ops), CurrentGop(ops);
      && Inv(c, Written(ops)) && c.maxSize == NewCache<T>(maxSize, maxGopSize).maxSize
      && (c.haveIdr <==> 0 < |gop| <= c.maxSize)
      && (c.haveIdr ==> Newest(c) == gop)
  {
    if |ops| == 0 {
      NewCacheInv<T>(maxSize, maxGopSize);
    } else {
      CurrentGopIsCached(maxSize, maxGopSize, ops[..|ops| - 1]);
      var before := AfterOps(NewCache<T>(maxSize, maxGopSize), ops[..|ops| - 1]);
      var history := Written(ops[..|ops| - 1]);
      assert history + [] == history;
      hide Inv, Write;
      match ops[|ops| - 1]
      case Clear => ClearPreserves(before, history);
      case Put(f) =>
        WritePreserves(before, f, history);
        WriteKeepsLimits(before, f);
        if f.isKey {
          KeyFrameOpens(before, f, history);
          AtLeastMinimum(before, history);
        } else if before.haveIdr {
          FrameContinues(before, f, history);
        } else {
          StaysWithoutKey(before, f);
        }
    }
  }

  lemma AtLeastMinimum<T>(c: Cache<T>, history: seq<Frame<T>>)
    requires Inv(c, history)
    ensures c.maxSize >= RING_MIN_SIZE
  {
  }

  lemma StaysWithoutKey<T>(c: Cache<T>, f: Frame<T>)
    requires |c.gops| > 0 && !c.haveIdr && !f.isKey
    ensures !Write(c, f).haveIdr
  {
    hide Flatten, Push;
  }
}

module RingStorage {
  import opened GopCache

  class RingStorage<T> {
    var started: bool
    var haveIdr: bool
    var size: int
    var maxSize: nat
    var maxGopSize: nat
    var dataCache: seq<Gop<T>>

    ghost function Value(): Cache<T>
      reads this
    {
      Cache(started, haveIdr, size, maxSize, maxGopSize, dataCache)
    }

    constructor (maxSize: nat, maxGopSize: nat)
      ensures Value() == NewCache(maxSize, maxGopSize)
    {
      this.maxSize := if maxSize < RING_MIN_SIZE then RING_MIN_SIZE else maxSize;
      this.maxGopSize := maxGopSize;
      started := false;
      size, haveIdr, dataCache := 0, false, [[]];
    }

    method Write(isKey: bool, data: T)
      requires |dataCache| > 0
      modifies this
      ensures Value() == GopCache.Write(old(Value()), Frame(isKey, data))
    {
      hide OpenGop, Shrink;
      if isKey {
        StartGop();
      }
      if !haveIdr && started {
        return;
      }
      dataCache := Push(dataCache, Frame(isKey, data));
      size := size + 1;
      if size > maxSize {
        OnOverflow();
      }
    }

    method StartGop()
      requires |dataCache| > 0
      modifies this
      ensures Value() == OpenGop(old(Value())) && |dataCache| > 0
    {
      haveIdr := true;
      started := true;
      if |dataCache[|dataCache| - 1]| != 0 {
        dataCache := dataCache + [[]];
      }
      if |dataCache| > maxGopSize {
        PopFrontGop();
      }
    }

    method OnOverflow()
      requires |dataCache| > 0
      modifies this
      ensures Value() == Shrink(old(Value()))
    {
      DropOldGops();
      if size > maxSize {
        ClearCache();
      }
    }

    method DropOldGops()
      requires |dataCache| > 0
      modifies this`size, this`dataCache
      ensures dataCache == [old(dataCache)[|old(dataCache)| - 1]]
      ensures size == old(size) - |Flatten(old(dataCache)[..|old(dataCache)| - 1])|
    {
      ghost var gops, dropped := dataCache, 0;
      while |dataCache| > 1
        invariant 0 <= dropped < |gops|
        invariant dataCache == gops[dropped..]
        invariant size == old(size) - |Flatten(gops[..dropped])|
      {
        assert gops[..dropped + 1][..dropped] == gops[..dropped];
        FlattenSplitsLast(gops[..dropped + 1]);
        ghost var before := Value();
        PopFrontGop();
        assert dataCache == Value().gops == GopCache.PopFrontGop(before).gops == gops[dropped..][1..];
        dropped := dropped + 1;
      }
    }

    method Clone() returns (ret: RingStorage<T>)
      ensures fresh(ret) && ret.Value() == Value()
    {
      ret := new RingStorage<T>(0, 0);
      ret.size := size;
      ret.haveIdr := haveIdr;
      ret.started := started;
      ret.maxSize := maxSize;
      ret.maxGopSize := maxGopSize;
      ret.dataCache := dataCache;
    }

    method ClearCache()
      modifies this
      ensures Value() == GopCache.ClearCache(old(Value()))
    {
      size := 0;
      haveIdr := false;
      dataCache := [];
      dataCache := dataCache + [[]];
    }

    method PopFrontGop()
      modifies this`size, this`dataCache
      ensures Value() == GopCache.PopFrontGop(old(Value()))
    {
      if |dataCache| != 0 {
        size := size - |dataCache[0]|;
        dataCache := dataCache[1..];
        if |dataCache| == 0 {
          dataCache := dataCache + [[]];
        }
      }
    }
  }
}
