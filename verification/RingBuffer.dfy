// The replicated ring: src/Util/RingBuffer.h, classes _RingReader,
// _RingReaderDispatcher and RingBuffer. One thread-safe main cache is cloned
// into one replica per poller thread; each replica is fed through the poller's
// task queue and fans out to the readers attached on that thread.

module RingReaders {
  import opened GopCache

  // `delivered` is what the present callback has been given.
  datatype Reader<T> = Reader(alive: bool, useCache: bool, callback: bool, delivered: seq<Frame<T>>)

  function NewReader<T>(useCache: bool): Reader<T> {
    Reader(true, useCache, false, [])
  }

  function OnRead<T>(r: Reader<T>, f: Frame<T>): Reader<T> {
    if r.callback then r.(delivered := r.delivered + [f]) else r
  }

  // setReadCB: a callback is first handed the whole cache, if the reader has one.
  function SetReadCB<T>(r: Reader<T>, storage: Cache<T>, some: bool): Reader<T> {
    if some then r.(callback := true, delivered := if r.useCache then Flatten(storage.gops) else [])
    else r.(callback := false)
  }

  // One frame handed to every reader; expired ones are dropped from the table.
  function Deliver<T>(readers: map<nat, Reader<T>>, f: Frame<T>): map<nat, Reader<T>> {
    map r | r in readers && readers[r].alive :: OnRead(readers[r], f)
  }

  // The live readers stay, and those with a callback have one frame more.
  lemma DeliverIff<T>(readers: map<nat, Reader<T>>, f: Frame<T>, r: nat)
    ensures r in Deliver(readers, f) <==> r in readers && readers[r].alive
    ensures r in Deliver(readers, f) ==>
      var before, after := readers[r], Deliver(readers, f)[r];
      && after.alive && after.callback == before.callback
      && after.delivered == before.delivered + (if before.callback then [f] else [])
  {
    assert r in readers ==> readers[r].delivered + [] == readers[r].delivered;
  }

  // The table when the readers in `done` have had their turn.
  ghost function Visited<T>(readers: map<nat, Reader<T>>, done: set<nat>, f: Frame<T>): map<nat, Reader<T>> {
    map r | r in readers && (r in done ==> readers[r].alive) ::
      if r in done then OnRead(readers[r], f) else readers[r]
  }

  lemma VisitNext<T>(readers: map<nat, Reader<T>>, done: set<nat>, f: Frame<T>, it: nat)
    requires it in readers && it !in done
    ensures var now := Visited(readers, done, f);
      && it in now && now[it] == readers[it]
      && Visited(readers, done + {it}, f) == if readers[it].alive then now[it := OnRead(readers[it], f)] else now - {it}
  {
  }

  lemma VisitAll<T>(readers: map<nat, Reader<T>>, f: Frame<T>)
    ensures Visited(readers, {}, f) == readers
    ensures Visited(readers, readers.Keys, f) == Deliver(readers, f)
  {
  }

  lemma RemoveOne<T>(readers: map<nat, Reader<T>>, it: nat)
    requires it in readers
    ensures |readers - {it}| == |readers| - 1
    ensures |readers - {it}| == 0 <==> readers - {it} == map[]
  {
    assert (readers - {it}).Keys == readers.Keys - {it};
    assert |readers.Keys - {it}| == |readers.Keys| - 1;
    assert |readers| == |readers.Keys| && |readers - {it}| == |(readers - {it}).Keys|;
  }

  lemma ReplaceOne<T>(readers: map<nat, Reader<T>>, it: nat, r: Reader<T>)
    requires it in readers
    ensures |readers[it := r]| == |readers| && readers[it := r] != map[]
  {
    assert readers[it := r].Keys == readers.Keys;
    assert |readers| == |readers.Keys| && |readers[it := r]| == |readers[it := r].Keys|;
    assert it in readers[it := r];
  }
}

module RingDispatcher {
  import opened GopCache
  import opened RingReaders
  import opened RingStorage

  class RingReaderDispatcher<T> {
    const storage: RingStorage<T>
    var readerMap: map<nat, Reader<T>>
    var readerSize: int

    ghost predicate Valid()
      reads this, storage
    {
      readerSize == |readerMap| && |storage.dataCache| > 0
    }

    constructor (storage: RingStorage<T>)
      requires |storage.dataCache| > 0
      ensures Valid() && this.storage == storage && readerMap == map[]
    {
      this.storage := storage;
      readerMap := map[];
      readerSize := 0;
    }

    // `emptied` says whether a call of onSizeChanged reported size 0.
    method Write(isKey: bool, data: T) returns (emptied: bool)
      requires Valid()
      modifies this`readerMap, this`readerSize, storage
      ensures Valid()
      ensures readerMap == Deliver(old(readerMap), Frame(isKey, data))
      ensures storage.Value() == GopCache.Write(old(storage.Value()), Frame(isKey, data))
      ensures emptied <==> old(readerMap) != map[] && readerMap == map[]
    {
      hide Visited, Deliver, OnRead, GopCache.Write;
      emptied := false;
      ghost var before := readerMap;
      ghost var done: set<nat> := {};
      var todo := readerMap.Keys;
      VisitAll(before, Frame(isKey, data));
      while todo != {}
        invariant todo + done == before.Keys && todo !! done
        invariant readerMap == Visited(before, done, Frame(isKey, data))
        invariant readerSize == |readerMap|
        invariant emptied <==> before != map[] && readerMap == map[]
        modifies this`readerMap, this`readerSize
        decreases todo
      {
        var it :| it in todo;
        VisitNext(before, done, Frame(isKey, data), it);
        if !readerMap[it].alive {
          RemoveOne(readerMap, it);
          readerMap := readerMap - {it};
          readerSize := readerSize - 1;
          emptied := emptied || readerSize == 0;
        } else {
          ReplaceOne(readerMap, it, OnRead(readerMap[it], Frame(isKey, data)));
          readerMap := readerMap[it := OnRead(readerMap[it], Frame(isKey, data))];
        }
        todo, done := todo - {it}, done + {it};
      }
      assert done == before.Keys;
      storage.Write(isKey, data);
    }

    method Attach(id: nat, useCache: bool)
      requires Valid() && id !in readerMap
      modifies this`readerMap, this`readerSize
      ensures Valid() && readerMap == old(readerMap)[id := NewReader(useCache)]
    {
      readerMap := readerMap[id := NewReader(useCache)];
      readerSize := readerSize + 1;
    }

    // setReadCB and flushGop of the reader `id`.
    method SetReadCB(id: nat, some: bool)
      requires Valid() && id in readerMap
      modifies this`readerMap
      ensures Valid()
      ensures readerMap == old(readerMap)[id := RingReaders.SetReadCB(old(readerMap)[id], storage.Value(), some)]
    {
      var replay: seq<Frame<T>> := [];
      if some && readerMap[id].useCache {
        var gops := storage.dataCache;
        for i := 0 to |gops|
          invariant replay == Flatten(gops[..i])
          modifies {}
        {
          for j := 0 to |gops[i]|
            invariant replay == Flatten(gops[..i]) + gops[i][..j]
            modifies {}
          {
            replay := replay + [gops[i][j]];
          }
          FlattenSplitsLast(gops[..i + 1]);
          assert gops[..i + 1][..i] == gops[..i];
        }
        assert gops[..|gops|] == gops;
      }
      ReplaceOne(readerMap, id, RingReaders.SetReadCB(readerMap[id], storage.Value(), some));
      readerMap := readerMap[id :=
        if some then Reader(readerMap[id].alive, readerMap[id].useCache, true, replay)
        else readerMap[id].(callback := false)];
    }
  }
}

// The whole object as a state machine. Each event is one critical section or
// one task run by a poller thread; a run is any sequence of events.
module RingProtocol {
  import opened GopCache
  import opened RingReaders

  datatype Task<T> =
    | WriteTask(disp: nat, frame: Frame<T>)
    | ClearTask(disp: nat)
    | DetachTask(disp: nat, reader: nat)

  // `pos` counts the writes this dispatcher has absorbed, those cloned included;
  // `skippedClear` remembers that it ignored a clearCache because of its readers
  // and, with one GOP, has not absorbed a key frame since.
  datatype Disp<T> = Disp(poller: nat, storage: Cache<T>, readers: map<nat, Reader<T>>, pos: nat, skippedClear: bool)

  // `current` is _dispatcher_map; `disps` also keeps dispatchers that left it
  // but may still be named by queued tasks.
  datatype State<T> = State(
    main: Cache<T>,
    history: seq<Frame<T>>,
    current: map<nat, nat>,
    disps: map<nat, Disp<T>>,
    queues: map<nat, seq<Task<T>>>)

  datatype Event<T> =
    | Write(frame: Frame<T>)
    | ClearAll
    | Lookup(poller: nat, disp: nat)
    | Attach(poller: nat, reader: nat, useCache: bool)
    | SetCallback(disp: nat, reader: nat, some: bool)
    | Release(disp: nat, reader: nat, onPoller: bool)
    | RunTask(poller: nat)

  function Init<T>(maxSize: nat, maxGopSize: nat): State<T> {
    State(NewCache(maxSize, maxGopSize), [], map[], map[], map[])
  }

  function Queue<T>(s: State<T>, poller: nat): seq<Task<T>> {
    if poller in s.queues then s.queues[poller] else []
  }

  predicate IsCurrent<T>(s: State<T>, d: nat) {
    d in s.disps && s.disps[d].poller in s.current && s.current[s.disps[d].poller] == d
  }

  // RingBuffer::write and clearCache post one task per registered dispatcher.
  function Post<T>(s: State<T>, make: nat -> Task<T>): map<nat, seq<Task<T>>> {
    map p | p in s.queues.Keys + s.current.Keys ::
      if p in s.current then Queue(s, p) + [make(s.current[p])] else Queue(s, p)
  }

  // onSizeChanged unregisters the poller's dispatcher when it reports size 0.
  function Unregister<T>(s: State<T>, d: nat, before: map<nat, Reader<T>>): State<T>
    requires d in s.disps
  {
    if before != map[] && s.disps[d].readers == map[] then s.(current := s.current - {s.disps[d].poller}) else s
  }

  function SetReaders<T>(s: State<T>, d: nat, readers: map<nat, Reader<T>>): State<T>
    requires d in s.disps
  {
    s.(disps := s.disps[d := s.disps[d].(readers := readers)])
  }

  function Detach<T>(s: State<T>, d: nat, reader: nat): State<T>
    requires d in s.disps
  {
    Unregister(SetReaders(s, d, s.disps[d].readers - {reader}), d, s.disps[d].readers)
  }

  // A write absorbed by a replica and handed to its readers.
  function Absorb<T>(disp: Disp<T>, f: Frame<T>): Disp<T>
    requires |disp.storage.gops| > 0
  {
    disp.(
      readers := Deliver(disp.readers, f),
      storage := GopCache.Write(disp.storage, f),
      pos := disp.pos + 1,
      skippedClear := disp.skippedClear && !(f.isKey && disp.storage.maxGopSize <= 1))
  }

  // A clear task as a replica runs it.
  function Clear<T>(disp: Disp<T>): Disp<T> {
    if disp.readers == map[] then disp.(storage := ClearCache(disp.storage)) else disp.(skippedClear := true)
  }

  function RunOne<T>(s: State<T>, t: Task<T>): State<T>
    requires t.disp in s.disps && |s.disps[t.disp].storage.gops| > 0
  {
    var d := t.disp;
    var disp := s.disps[d];
    match t
    case WriteTask(_, f) =>
      Unregister(s.(disps := s.disps[d := Absorb(disp, f)]), d, disp.readers)
    case ClearTask(_) => s.(disps := s.disps[d := Clear(disp)])
    case DetachTask(_, r) => Detach(s, d, r)
  }

  ghost predicate Enabled<T>(s: State<T>, e: Event<T>) {
    match e
    case Write(_) => |s.main.gops| > 0
    case ClearAll => true
    case Lookup(p, d) => p !in s.current && d !in s.disps
    case Attach(p, r, _) =>
      p in s.current && s.current[p] in s.disps && r !in s.disps[s.current[p]].readers
      && forall d :: DetachTask(d, r) !in Queue(s, p)
    case SetCallback(d, r, _) => d in s.disps && r in s.disps[d].readers && s.disps[d].readers[r].alive
    case Release(d, r, _) => d in s.disps && r in s.disps[d].readers && s.disps[d].readers[r].alive
    case RunTask(p) =>
      Queue(s, p) != [] && Queue(s, p)[0].disp in s.disps && |s.disps[Queue(s, p)[0].disp].storage.gops| > 0
  }

  ghost function Apply<T>(s: State<T>, e: Event<T>): State<T>
    requires Enabled(s, e)
  {
    match e
    case Write(f) =>
      s.(queues := Post(s, (d: nat) => WriteTask(d, f)), main := GopCache.Write(s.main, f), history := s.history + [f])
    case ClearAll =>
      s.(queues := Post(s, (d: nat) => ClearTask(d)), main := ClearCache(s.main))
    case Lookup(p, d) =>
      s.(current := s.current[p := d], disps := s.disps[d := Disp(p, s.main, map[], |s.history|, false)])
    case Attach(p, r, useCache) =>
      var d := s.current[p];
      SetReaders(s, d, s.disps[d].readers[r := NewReader(useCache)])
    case SetCallback(d, r, some) =>
      var disp := s.disps[d];
      SetReaders(s, d, disp.readers[r := SetReadCB(disp.readers[r], disp.storage, some)])
    case Release(d, r, onPoller) =>
      var disp := s.disps[d];
      if onPoller then Detach(s, d, r)
      else
        var marked := SetReaders(s, d, disp.readers[r := disp.readers[r].(alive := false)]);
        marked.(queues := marked.queues[disp.poller := Queue(s, disp.poller) + [DetachTask(d, r)]])
    case RunTask(p) =>
      var q := Queue(s, p);
      RunOne(s.(queues := s.queues[p := q[1..]]), q[0])
  }

  // Any sequence of events, those that cannot happen being skipped.
  ghost function Exec<T>(s: State<T>, events: seq<Event<T>>): State<T> {
    if |events| == 0 then s
    else
      var before := Exec(s, events[..|events| - 1]);
      var e := events[|events| - 1];
      if Enabled(before, e) then Apply(before, e) else before
  }

  // ---- What a dispatcher still has to do ----

  function RunOn<T>(c: Cache<T>, t: Task<T>, d: nat): (r: Cache<T>)
    requires |c.gops| > 0
    ensures |r.gops| > 0
  {
    if t.disp != d then c
    else match t
      case WriteTask(_, f) => GopCache.Write(c, f)
      case ClearTask(_) => ClearCache(c)
      case DetachTask(_, _) => c
  }

  // The dispatcher's cache after the tasks still queued for it.
  function CatchUp<T>(c: Cache<T>, q: seq<Task<T>>, d: nat): (r: Cache<T>)
    requires |c.gops| > 0
    ensures |r.gops| > 0
  {
    if |q| == 0 then c else RunOn(CatchUp(c, q[..|q| - 1], d), q[|q| - 1], d)
  }

  // The frames still queued for it.
  function Pending<T>(q: seq<Task<T>>, d: nat): seq<Frame<T>> {
    if |q| == 0 then []
    else
      var t := q[|q| - 1];
      Pending(q[..|q| - 1], d) + (if t.WriteTask? && t.disp == d then [t.frame] else [])
  }

  lemma {:induction false} FrontTask<T>(c: Cache<T>, q: seq<Task<T>>, d: nat)
    requires |c.gops| > 0 && |q| > 0
    ensures CatchUp(c, q, d) == CatchUp(RunOn(c, q[0], d), q[1..], d)
    ensures Pending(q, d) == (if q[0].WriteTask? && q[0].disp == d then [q[0].frame] else []) + Pending(q[1..], d)
  {
    var n := |q| - 1;
    hide GopCache.Write, ClearCache;
    if n != 0 {
      FrontTask(c, q[..n], d);
      assert q[..n][1..] == q[1..][..n - 1];
      assert q[1..][n - 1] == q[n] && |q[1..]| == n;
      assert CatchUp(c, q, d) == RunOn(CatchUp(c, q[..n], d), q[n], d);
      var c' := RunOn(c, q[0], d);
      assert CatchUp(c', q[1..], d) == RunOn(CatchUp(c', q[1..][..n - 1], d), q[n], d);
    }
  }

  lemma Snoc<T>(c: Cache<T>, q: seq<Task<T>>, t: Task<T>, d: nat)
    requires |c.gops| > 0
    ensures CatchUp(c, q + [t], d) == RunOn(CatchUp(c, q, d), t, d)
    ensures Pending(q + [t], d) == Pending(q, d) + (if t.WriteTask? && t.disp == d then [t.frame] else [])
  {
    assert (q + [t])[..|q|] == q;
  }

  lemma {:induction false} ForeignQueue<T>(c: Cache<T>, q: seq<Task<T>>, d: nat)
    requires |c.gops| > 0 && forall t :: t in q ==> t.disp != d
    ensures CatchUp(c, q, d) == c && Pending(q, d) == []
  {
    if |q| != 0 {
      ForeignQueue(c, q[..|q| - 1], d);
      assert q[|q| - 1] in q;
    }
  }

  // ---- The invariant of the protocol ----

  // What a live callback has been given is the end of history[..pos]: contiguous,
  // in order, without gaps or repetitions.
  ghost predicate ReaderOk<T>(r: Reader<T>, history: seq<Frame<T>>, pos: nat)
    requires pos <= |history|
  {
    r.alive && r.callback ==> IsSuffix(r.delivered, history[..pos])
  }

  ghost predicate DispOk<T>(disp: Disp<T>, history: seq<Frame<T>>, q: seq<Task<T>>, d: nat) {
    var todo := Pending(q, d);
    && disp.pos + |todo| <= |history|
    && todo == history[disp.pos..disp.pos + |todo|]
    && Inv(disp.storage, history[..disp.pos])
    && forall r :: r in disp.readers ==> ReaderOk(disp.readers[r], history, disp.pos)
  }

  // No clear has been missed, or with one GOP a key frame is on its way.
  ghost predicate Synced<T>(disp: Disp<T>, q: seq<Task<T>>, d: nat) {
    !disp.skippedClear || (disp.storage.maxGopSize <= 1 && !NoKey(Pending(q, d)))
  }

  ghost predicate SameLimits<T>(a: Cache<T>, b: Cache<T>) {
    a.maxSize == b.maxSize && a.maxGopSize == b.maxGopSize
  }

  ghost predicate InStep<T>(disp: Disp<T>, main: Cache<T>, history: seq<Frame<T>>, q: seq<Task<T>>, d: nat) {
    && |disp.storage.gops| > 0
    && SameLimits(disp.storage, main)
    && disp.pos + |Pending(q, d)| == |history|
    && (Synced(disp, q, d) ==> CatchUp(disp.storage, q, d) == main)
  }

  ghost predicate OneOk<T>(s: State<T>, d: nat)
    requires d in s.disps
  {
    var disp := s.disps[d];
    var q := Queue(s, disp.poller);
    && DispOk(disp, s.history, q, d)
    && (disp.readers != map[] ==> IsCurrent(s, d))
    && (IsCurrent(s, d) ==> InStep(disp, s.main, s.history, q, d))
  }

  ghost predicate TasksOk<T>(s: State<T>) {
    forall p, t :: t in Queue(s, p) ==> t.disp in s.disps && s.disps[t.disp].poller == p
  }

  ghost predicate RegisteredOk<T>(s: State<T>) {
    forall p :: p in s.current ==> s.current[p] in s.disps && s.disps[s.current[p]].poller == p
  }

  ghost predicate AllOk<T>(s: State<T>) {
    forall d :: d in s.disps ==> OneOk(s, d)
  }

  ghost predicate Ok<T>(s: State<T>) {
    Inv(s.main, s.history) && RegisteredOk(s) && TasksOk(s) && AllOk(s)
  }

  lemma InitOk<T>(maxSize: nat, maxGopSize: nat)
    ensures Ok(Init<T>(maxSize, maxGopSize))
  {
    NewCacheInv<T>(maxSize, maxGopSize);
  }

  lemma InvHasGop<T>(c: Cache<T>, history: seq<Frame<T>>)
    requires Inv(c, history)
    ensures |c.gops| > 0
  {
  }

  // Catching up keeps the cache's invariant and limits.
  lemma {:induction false} CatchUpInv<T>(c: Cache<T>, q: seq<Task<T>>, d: nat, seen: seq<Frame<T>>)
    requires Inv(c, seen) && |c.gops| > 0
    ensures Inv(CatchUp(c, q, d), seen + Pending(q, d)) && SameLimits(CatchUp(c, q, d), c)
  {
    hide Inv, GopCache.Write;
    if |q| == 0 {
      assert seen + [] == seen;
    } else {
      var t, most := q[|q| - 1], q[..|q| - 1];
      CatchUpInv(c, most, d, seen);
      var before, all := CatchUp(c, most, d), seen + Pending(most, d);
      assert Pending(most, d) + [] == Pending(most, d);
      if t.disp == d {
        match t
        case WriteTask(_, f) =>
          WritePreserves(before, f, all);
          WriteKeepsLimits(before, f);
          assert seen + (Pending(most, d) + [f]) == all + [f];
        case ClearTask(_) => ClearPreserves(before, all);
        case DetachTask(_, _) =>
      }
    }
  }

  // With one GOP, a key frame among the queued writes makes any two caches of the
  // same history catch up to the same cache.
  lemma {:induction false} CatchUpMerges<T>(a: Cache<T>, b: Cache<T>, q: seq<Task<T>>, d: nat, seen: seq<Frame<T>>)
    requires Inv(a, seen) && Inv(b, seen) && |a.gops| > 0 && |b.gops| > 0
    requires SameLimits(a, b) && a.maxGopSize <= 1 && !NoKey(Pending(q, d))
    ensures CatchUp(a, q, d) == CatchUp(b, q, d)
  {
    hide Inv, GopCache.Write;
    var t, most := q[|q| - 1], q[..|q| - 1];
    if !NoKey(Pending(most, d)) {
      CatchUpMerges(a, b, most, d, seen);
    } else {
      assert Pending(q, d) == Pending(most, d) + [t.frame] && t.frame.isKey;
      CatchUpInv(a, most, d, seen);
      CatchUpInv(b, most, d, seen);
      KeyFrameEqualizes(CatchUp(a, most, d), CatchUp(b, most, d), t.frame, seen + Pending(most, d));
    }
  }

  lemma StillSeen<T>(disp: Disp<T>, history: seq<Frame<T>>, q: seq<Task<T>>, f: Frame<T>, d: nat)
    requires DispOk(disp, history, q, d)
    ensures DispOk(disp, history + [f], q, d)
  {
    hide Inv;
    assert (history + [f])[..disp.pos] == history[..disp.pos];
    var n := |Pending(q, d)|;
    assert (history + [f])[disp.pos..disp.pos + n] == history[disp.pos..disp.pos + n];
    forall r | r in disp.readers
      ensures ReaderOk(disp.readers[r], history + [f], disp.pos)
    {
      assert ReaderOk(disp.readers[r], history, disp.pos);
    }
  }

  // A write posted to a dispatcher that is in step.
  lemma WriteSeen<T>(disp: Disp<T>, main: Cache<T>, history: seq<Frame<T>>, q: seq<Task<T>>, f: Frame<T>, d: nat)
    requires DispOk(disp, history, q, d) && Inv(main, history) && |main.gops| > 0
    requires InStep(disp, main, history, q, d)
    ensures var q' := q + [WriteTask(d, f)];
      DispOk(disp, history + [f], q', d) && InStep(disp, GopCache.Write(main, f), history + [f], q', d)
  {
    hide GopCache.Write, Inv, ReaderOk, NoKey, Pending, CatchUp;
    StillSeen(disp, history, q, f, d);
    Snoc(disp.storage, q, WriteTask(d, f), d);
    var todo := Pending(q, d);
    assert history[..disp.pos] + todo == history;
    CatchUpInv(disp.storage, q, d, history[..disp.pos]);
    WriteKeepsLimits(main, f);
    NoKeySnoc(todo, f);
    if disp.storage.maxGopSize <= 1 && f.isKey {
      KeyFrameEqualizes(CatchUp(disp.storage, q, d), main, f, history);
    }
    assert (history + [f])[disp.pos..] == todo + [f];
  }

  lemma WriteForeign<T>(disp: Disp<T>, history: seq<Frame<T>>, q: seq<Task<T>>, t: Task<T>, d: nat)
    requires DispOk(disp, history, q, d) && t.disp != d
    ensures DispOk(disp, history, q + [t], d)
  {
    hide Inv;
    assert (q + [t])[..|q|] == q;
  }

  lemma WriteOne<T>(s: State<T>, f: Frame<T>, d: nat)
    requires Ok(s) && d in s.disps && Enabled(s, Event.Write(f))
    ensures OneOk(Apply(s, Event.Write(f)), d)
  {
    hide GopCache.Write, Inv, DispOk, InStep, Pending, CatchUp;
    var disp := s.disps[d];
    var q := Queue(s, disp.poller);
    assert OneOk(s, d);
    StillSeen(disp, s.history, q, f, d);
    if IsCurrent(s, d) {
      WriteSeen(disp, s.main, s.history, q, f, d);
    } else if disp.poller in s.current {
      WriteForeign(disp, s.history + [f], q, WriteTask(s.current[disp.poller], f), d);
    }
  }

  lemma PostTasksOk<T>(s: State<T>, s': State<T>, make: nat -> Task<T>)
    requires RegisteredOk(s) && TasksOk(s) && s'.queues == Post(s, make)
    requires s'.disps == s.disps && forall d: nat :: make(d).disp == d
    ensures TasksOk(s')
  {
    forall p, t | t in Queue(s', p)
      ensures t.disp in s.disps && s.disps[t.disp].poller == p
    {
      if p in s.current {
        assert t in Queue(s, p) || t == make(s.current[p]);
      } else {
        assert Queue(s', p) == Queue(s, p);
      }
    }
  }

  lemma WriteOk<T>(s: State<T>, f: Frame<T>)
    requires Ok(s) && Enabled(s, Event.Write(f))
    ensures Ok(Apply(s, Event.Write(f)))
  {
    hide GopCache.Write, Inv, OneOk, TasksOk, Post;
    var s' := Apply(s, Event.Write(f));
    WritePreserves(s.main, f, s.history);
    PostTasksOk(s, s', (d: nat) => WriteTask(d, f));
    forall d | d in s.disps
      ensures OneOk(s', d)
    {
      WriteOne(s, f, d);
    }
  }

  lemma ClearKeepsLimits<T>(c: Cache<T>)
    ensures SameLimits(ClearCache(c), c)
  {
  }

  lemma ClearOne<T>(s: State<T>, d: nat)
    requires Ok(s) && d in s.disps
    ensures OneOk(Apply(s, ClearAll), d)
  {
    hide GopCache.Write, Inv, ClearCache, Pending, CatchUp, ReaderOk, NoKey, TasksOk, RegisteredOk;
    var disp := s.disps[d];
    var q := Queue(s, disp.poller);
    assert OneOk(s, d);
    ClearKeepsLimits(s.main);
    InvHasGop(disp.storage, s.history[..disp.pos]);
    if disp.poller in s.current {
      Snoc(disp.storage, q, ClearTask(s.current[disp.poller]), d);
      assert Pending(q, d) + [] == Pending(q, d);
    }
  }

  lemma ClearOk<T>(s: State<T>)
    requires Ok(s)
    ensures Ok(Apply(s, ClearAll))
  {
    hide ClearCache, Inv, OneOk, TasksOk, Post;
    var s' := Apply(s, ClearAll);
    ClearPreserves(s.main, s.history);
    PostTasksOk(s, s', (d: nat) => ClearTask(d));
    forall d | d in s.disps
      ensures OneOk(s', d)
    {
      ClearOne(s, d);
    }
  }

  // Steps that leave the tasks alone keep them well addressed.
  lemma SameTasks<T>(s: State<T>, s': State<T>)
    requires TasksOk(s) && s'.queues == s.queues
    requires forall d :: d in s.disps ==> d in s'.disps && s'.disps[d].poller == s.disps[d].poller
    ensures TasksOk(s')
  {
    forall p, t | t in Queue(s', p)
      ensures t.disp in s'.disps && s'.disps[t.disp].poller == p
    {
      assert t in Queue(s, p);
    }
  }

  lemma Untouched<T>(s: State<T>, s': State<T>, d: nat)
    requires d in s.disps && OneOk(s, d)
    requires d in s'.disps && s'.disps[d] == s.disps[d]
    requires s'.main == s.main && s'.history == s.history
    requires Queue(s', s.disps[d].poller) == Queue(s, s.disps[d].poller)
    requires IsCurrent(s', d) <==> IsCurrent(s, d)
    ensures OneOk(s', d)
  {
    hide DispOk, InStep, Queue, IsCurrent;
  }

  lemma LookupNew<T>(s: State<T>, p: nat, d: nat)
    requires Ok(s) && Enabled(s, Lookup(p, d))
    ensures OneOk(Apply(s, Lookup(p, d)), d)
  {
    hide Inv, Pending, CatchUp, ReaderOk, RegisteredOk, AllOk;
    InvHasGop(s.main, s.history);
    assert s.history[..|s.history|] == s.history;
    assert forall t :: t in Queue(s, p) ==> t.disp != d;
    hide TasksOk;
    ForeignQueue(s.main, Queue(s, p), d);
  }

  lemma LookupOk<T>(s: State<T>, p: nat, d: nat)
    requires Ok(s) && Enabled(s, Lookup(p, d))
    ensures Ok(Apply(s, Lookup(p, d)))
  {
    hide Inv, DispOk, InStep, TasksOk, OneOk;
    var s' := Apply(s, Lookup(p, d));
    SameTasks(s, s');
    forall d' | d' in s'.disps
      ensures OneOk(s', d')
    {
      if d' == d {
        LookupNew(s, p, d);
      } else {
        Untouched(s, s', d');
      }
    }
  }

  // Changing the readers of one dispatcher, and nothing else.
  lemma ReadersOk<T>(s: State<T>, d: nat, readers: map<nat, Reader<T>>)
    requires Ok(s) && d in s.disps
    requires forall r :: r in readers ==> ReaderOk(readers[r], s.history, s.disps[d].pos)
    requires readers != map[] ==> IsCurrent(s, d)
    ensures Ok(SetReaders(s, d, readers))
  {
    hide Inv, DispOk, InStep, TasksOk, OneOk, ReaderOk;
    var s' := SetReaders(s, d, readers);
    SameTasks(s, s');
    ReadersOne(s, d, readers);
    forall d' | d' in s'.disps
      ensures OneOk(s', d')
    {
      if d' != d {
        Untouched(s, s', d');
      }
    }
  }

  lemma ReadersOne<T>(s: State<T>, d: nat, readers: map<nat, Reader<T>>)
    requires d in s.disps && OneOk(s, d)
    requires forall r :: r in readers ==> ReaderOk(readers[r], s.history, s.disps[d].pos)
    requires readers != map[] ==> IsCurrent(s, d)
    ensures OneOk(SetReaders(s, d, readers), d)
  {
    hide Inv, Pending, CatchUp, ReaderOk;
  }

  lemma AttachOk<T>(s: State<T>, p: nat, r: nat, useCache: bool)
    requires Ok(s) && Enabled(s, Attach(p, r, useCache))
    ensures Ok(Apply(s, Attach(p, r, useCache)))
  {
    hide Inv, Pending, CatchUp;
    var d := s.current[p];
    assert OneOk(s, d);
    ReadersOk(s, d, s.disps[d].readers[r := NewReader(useCache)]);
  }

  lemma SetCallbackOk<T>(s: State<T>, d: nat, r: nat, some: bool)
    requires Ok(s) && Enabled(s, SetCallback(d, r, some))
    ensures Ok(Apply(s, SetCallback(d, r, some)))
  {
    hide Pending, CatchUp;
    var disp := s.disps[d];
    assert OneOk(s, d);
    var reader := SetReadCB(disp.readers[r], disp.storage, some);
    assert ReaderOk(reader, s.history, disp.pos);
    hide Inv;
    ReadersOk(s, d, disp.readers[r := reader]);
  }

  lemma UnregisterOk<T>(s: State<T>, d: nat, before: map<nat, Reader<T>>)
    requires Ok(s) && d in s.disps
    requires before != map[] ==> IsCurrent(s, d)
    ensures Ok(Unregister(s, d, before))
  {
    hide Inv, DispOk, InStep, TasksOk;
    var s' := Unregister(s, d, before);
    SameTasks(s, s');
    forall d' | d' in s'.disps
      ensures OneOk(s', d')
    {
      assert OneOk(s, d');
      assert IsCurrent(s', d') ==> IsCurrent(s, d');
    }
  }

  lemma DetachOk<T>(s: State<T>, d: nat, r: nat)
    requires Ok(s) && d in s.disps
    ensures Ok(Detach(s, d, r))
  {
    hide Inv, Pending, CatchUp;
    assert OneOk(s, d);
    var readers := s.disps[d].readers;
    assert readers == map[] ==> readers - {r} == map[];
    ReadersOk(s, d, readers - {r});
    UnregisterOk(SetReaders(s, d, readers - {r}), d, readers);
  }

  lemma PostTaskOk<T>(s: State<T>, p: nat, t: Task<T>)
    requires TasksOk(s) && t.disp in s.disps && s.disps[t.disp].poller == p
    ensures TasksOk(s.(queues := s.queues[p := Queue(s, p) + [t]]))
  {
    var s' := s.(queues := s.queues[p := Queue(s, p) + [t]]);
    forall p', t' | t' in Queue(s', p')
      ensures t'.disp in s.disps && s.disps[t'.disp].poller == p'
    {
      assert t' in Queue(s, p') || (t' == t && p' == p);
    }
  }

  lemma PostOne<T>(s: State<T>, p: nat, t: Task<T>, d: nat)
    requires d in s.disps && OneOk(s, d) && t.DetachTask? && s.disps[d].poller == p
    ensures OneOk(s.(queues := s.queues[p := Queue(s, p) + [t]]), d)
  {
    hide Inv, Pending, CatchUp, GopCache.Write, ReaderOk;
    var s' := s.(queues := s.queues[p := Queue(s, p) + [t]]);
    assert IsCurrent(s', d) <==> IsCurrent(s, d);
    InvHasGop(s.disps[d].storage, s.history[..s.disps[d].pos]);
    Snoc(s.disps[d].storage, Queue(s, p), t, d);
  }

  lemma PostOneOk<T>(s: State<T>, p: nat, t: Task<T>)
    requires Ok(s) && t.disp in s.disps && s.disps[t.disp].poller == p && t.DetachTask?
    ensures Ok(s.(queues := s.queues[p := Queue(s, p) + [t]]))
  {
    hide Inv, OneOk, TasksOk;
    var s' := s.(queues := s.queues[p := Queue(s, p) + [t]]);
    PostTaskOk(s, p, t);
    forall d | d in s'.disps
      ensures OneOk(s', d)
    {
      if s.disps[d].poller == p {
        PostOne(s, p, t, d);
      } else {
        Untouched(s, s', d);
      }
    }
  }

  lemma ReleaseOk<T>(s: State<T>, d: nat, r: nat, onPoller: bool)
    requires Ok(s) && Enabled(s, Release(d, r, onPoller))
    ensures Ok(Apply(s, Release(d, r, onPoller)))
  {
    hide Inv, Pending, CatchUp, TasksOk, RegisteredOk;
    if onPoller {
      DetachOk(s, d, r);
    } else {
      var disp := s.disps[d];
      assert OneOk(s, d);
      var readers := disp.readers[r := disp.readers[r].(alive := false)];
      ReadersOk(s, d, readers);
      PostOneOk(SetReaders(s, d, readers), disp.poller, DetachTask(d, r));
    }
  }

  // ---- A poller runs the task at the head of its queue ----

  lemma HeadNotMine<T>(disp: Disp<T>, main: Cache<T>, history: seq<Frame<T>>, q: seq<Task<T>>, d: nat)
    requires |q| > 0 && DispOk(disp, history, q, d)
    requires q[0].disp != d || q[0].DetachTask?
    ensures DispOk(disp, history, q[1..], d)
    ensures InStep(disp, main, history, q, d) ==> InStep(disp, main, history, q[1..], d)
  {
    hide Inv, GopCache.Write, ClearCache, ReaderOk;
    InvHasGop(disp.storage, history[..disp.pos]);
    FrontTask(disp.storage, q, d);
  }

  lemma SuffixGrows<T>(s: seq<T>, whole: seq<T>, more: seq<T>)
    requires IsSuffix(s, whole)
    ensures IsSuffix(s + more, whole + more)
  {
    var n := |whole| - |s|;
    assert (whole + more)[n..] == whole[n..] + more;
  }

  lemma ReadersGrow<T>(readers: map<nat, Reader<T>>, history: seq<Frame<T>>, pos: nat)
    requires pos < |history| && forall r :: r in readers ==> ReaderOk(readers[r], history, pos)
    ensures var after := Deliver(readers, history[pos]);
      forall r :: r in after ==> ReaderOk(after[r], history, pos + 1)
  {
    hide IsSuffix;
    var f := history[pos];
    assert history[..pos + 1] == history[..pos] + [f];
    forall r | r in readers && readers[r].alive
      ensures ReaderOk(OnRead(readers[r], f), history, pos + 1)
    {
      assert ReaderOk(readers[r], history, pos);
      if readers[r].callback {
        SuffixGrows(readers[r].delivered, history[..pos], [f]);
      }
    }
  }

  lemma HeadWrite<T>(disp: Disp<T>, main: Cache<T>, history: seq<Frame<T>>, q: seq<Task<T>>, d: nat)
    requires |q| > 0 && q[0].disp == d && q[0].WriteTask?
    requires DispOk(disp, history, q, d) && |disp.storage.gops| > 0
    ensures var after := Absorb(disp, q[0].frame);
      && DispOk(after, history, q[1..], d)
      && (InStep(disp, main, history, q, d) ==> InStep(after, main, history, q[1..], d))
  {
    hide Inv, GopCache.Write, ClearCache, ReaderOk, Deliver, CatchUp;
    var f := q[0].frame;
    FrontTask(disp.storage, q, d);
    var todo, rest := Pending(q, d), Pending(q[1..], d);
    assert todo == [f] + rest && todo[0] == f && history[disp.pos] == f;
    assert history[..disp.pos + 1] == history[..disp.pos] + [f];
    WritePreserves(disp.storage, f, history[..disp.pos]);
    WriteKeepsLimits(disp.storage, f);
    ReadersGrow(disp.readers, history, disp.pos);
    assert history[disp.pos + 1..disp.pos + 1 + |rest|] == todo[1..];
    assert NoKey(todo) ==> NoKey(rest) by {
      assert todo[1..] == rest;
    }
    assert f.isKey ==> !NoKey(todo);
  }

  lemma HeadClear<T>(disp: Disp<T>, main: Cache<T>, history: seq<Frame<T>>, q: seq<Task<T>>, d: nat)
    requires |q| > 0 && q[0].disp == d && q[0].ClearTask? && DispOk(disp, history, q, d) && |disp.storage.gops| > 0
    ensures DispOk(Clear(disp), history, q[1..], d)
    ensures InStep(disp, main, history, q, d) ==> InStep(Clear(disp), main, history, q[1..], d)
  {
    hide Inv, GopCache.Write, ClearCache, ReaderOk, NoKey, Pending, CatchUp;
    FrontTask(disp.storage, q, d);
    assert [] + Pending(q[1..], d) == Pending(q[1..], d);
    var seen := history[..disp.pos];
    ClearPreserves(disp.storage, seen);
    ClearKeepsLimits(disp.storage);
    if disp.storage.maxGopSize <= 1 && !NoKey(Pending(q[1..], d)) {
      CatchUpMerges(ClearCache(disp.storage), disp.storage, q[1..], d, seen);
    }
  }

  // The queue's tail is addressed like the queue.
  lemma DequeueTasks<T>(s: State<T>, p: nat)
    requires TasksOk(s) && Queue(s, p) != []
    ensures TasksOk(s.(queues := s.queues[p := Queue(s, p)[1..]]))
  {
    var q := Queue(s, p);
    var s' := s.(queues := s.queues[p := q[1..]]);
    forall p', t | t in Queue(s', p')
      ensures t.disp in s.disps && s.disps[t.disp].poller == p'
    {
      assert t in Queue(s, p');
    }
  }

  lemma DequeueOne<T>(s: State<T>, p: nat, d: nat)
    requires d in s.disps && OneOk(s, d) && Queue(s, p) != []
    requires Queue(s, p)[0].disp != d || Queue(s, p)[0].DetachTask?
    ensures OneOk(s.(queues := s.queues[p := Queue(s, p)[1..]]), d)
  {
    hide DispOk, InStep;
    var s' := s.(queues := s.queues[p := Queue(s, p)[1..]]);
    if s.disps[d].poller == p {
      HeadNotMine(s.disps[d], s.main, s.history, Queue(s, p), d);
      assert IsCurrent(s', d) <==> IsCurrent(s, d);
    } else {
      Untouched(s, s', d);
    }
  }

  // Running a write or clear task, up to unregistering.
  lemma HeadRunOk<T>(s: State<T>, p: nat, after: Disp<T>)
    requires Ok(s) && Queue(s, p) != [] && Queue(s, p)[0].disp in s.disps
    requires var q, d := Queue(s, p), Queue(s, p)[0].disp;
      var disp := s.disps[d];
      && after.poller == disp.poller
      && (disp.readers == map[] ==> after.readers == map[])
      && DispOk(after, s.history, q[1..], d)
      && (InStep(disp, s.main, s.history, q, d) ==> InStep(after, s.main, s.history, q[1..], d))
    ensures var q, d := Queue(s, p), Queue(s, p)[0].disp;
      Ok(s.(queues := s.queues[p := q[1..]], disps := s.disps[d := after]))
  {
    hide DispOk, InStep, Inv, TasksOk;
    var q, d := Queue(s, p), Queue(s, p)[0].disp;
    TaskAddress(s, p);
    var popped := s.(queues := s.queues[p := q[1..]]);
    var s' := popped.(disps := s.disps[d := after]);
    DequeueTasks(s, p);
    SameTasks(popped, s');
    forall d' | d' in s'.disps
      ensures OneOk(s', d')
    {
      assert IsCurrent(s', d') <==> IsCurrent(s, d');
      assert OneOk(s, d');
      if d' != d {
        DequeueOne(s, p, d');
        Untouched(popped, s', d');
      }
    }
  }

  lemma TaskAddress<T>(s: State<T>, p: nat)
    requires TasksOk(s) && Queue(s, p) != []
    ensures Queue(s, p)[0].disp in s.disps && s.disps[Queue(s, p)[0].disp].poller == p
  {
    assert Queue(s, p)[0] in Queue(s, p);
  }

  lemma DetachRunOk<T>(s: State<T>, p: nat)
    requires Ok(s) && Queue(s, p) != [] && Queue(s, p)[0].DetachTask?
    ensures Ok(s.(queues := s.queues[p := Queue(s, p)[1..]]))
  {
    hide Inv, OneOk, TasksOk;
    DequeueTasks(s, p);
    forall d | d in s.disps
      ensures OneOk(s.(queues := s.queues[p := Queue(s, p)[1..]]), d)
    {
      DequeueOne(s, p, d);
    }
  }

  lemma RunTaskOk<T>(s: State<T>, p: nat)
    requires Ok(s) && Enabled(s, RunTask(p))
    ensures Ok(Apply(s, RunTask(p)))
  {
    hide DispOk, InStep, Inv, TasksOk, GopCache.Write, ClearCache, Deliver;
    var q := Queue(s, p);
    var t := q[0];
    var d := t.disp;
    TaskAddress(s, p);
    var disp := s.disps[d];
    assert OneOk(s, d);
    match t
    case WriteTask(_, f) =>
      HeadWrite(disp, s.main, s.history, q, d);
      var after := Absorb(disp, f);
      DeliverNone(disp.readers, f);
      HeadRunOk(s, p, after);
      var s' := s.(queues := s.queues[p := q[1..]], disps := s.disps[d := after]);
      assert IsCurrent(s', d) <==> IsCurrent(s, d);
      UnregisterOk(s', d, disp.readers);
    case ClearTask(_) =>
      HeadClear(disp, s.main, s.history, q, d);
      HeadRunOk(s, p, Clear(disp));
    case DetachTask(_, r) =>
      DetachRunOk(s, p);
      DetachOk(s.(queues := s.queues[p := q[1..]]), d, r);
  }

  lemma DeliverNone<T>(readers: map<nat, Reader<T>>, f: Frame<T>)
    ensures readers == map[] ==> Deliver(readers, f) == map[]
  {
  }

  lemma ApplyOk<T>(s: State<T>, e: Event<T>)
    requires Ok(s) && Enabled(s, e)
    ensures Ok(Apply(s, e))
  {
    hide Ok, Apply, Enabled;
    match e
    case Write(f) => WriteOk(s, f);
    case ClearAll => ClearOk(s);
    case Lookup(p, d) => LookupOk(s, p, d);
    case Attach(p, r, useCache) => AttachOk(s, p, r, useCache);
    case SetCallback(d, r, some) => SetCallbackOk(s, d, r, some);
    case Release(d, r, onPoller) => ReleaseOk(s, d, r, onPoller);
    case RunTask(p) => RunTaskOk(s, p);
  }

  lemma {:induction false} ExecOk<T>(s: State<T>, events: seq<Event<T>>)
    requires Ok(s)
    ensures Ok(Exec(s, events))
  {
    hide Ok, Apply, Enabled;
    if |events| != 0 {
      ExecOk(s, events[..|events| - 1]);
      var before := Exec(s, events[..|events| - 1]);
      if Enabled(before, events[|events| - 1]) {
        ApplyOk(before, events[|events| - 1]);
      }
    }
  }

  // ---- The theorems, over every run ----

  // A registered dispatcher ends up with the main cache once its queued tasks have
  // run, unless it ignored a clearCache. With one GOP the next key frame makes up
  // for that, from the moment it is written.
  lemma ReplicaConvergence<T>(maxSize: nat, maxGopSize: nat, events: seq<Event<T>>, d: nat)
    requires var s := Exec(Init(maxSize, maxGopSize), events);
      IsCurrent(s, d) && Synced(s.disps[d], Queue(s, s.disps[d].poller), d)
    ensures var s := Exec(Init(maxSize, maxGopSize), events);
      && |s.disps[d].storage.gops| > 0
      && CatchUp(s.disps[d].storage, Queue(s, s.disps[d].poller), d) == s.main
  {
    InitOk<T>(maxSize, maxGopSize);
    ExecOk(Init(maxSize, maxGopSize), events);
    var s := Exec(Init(maxSize, maxGopSize), events);
    assert OneOk(s, d);
  }

  lemma CaughtUpOk<T>(s: State<T>, d: nat)
    requires Ok(s) && IsCurrent(s, d)
    ensures var storage := s.disps[d].storage;
      var after := CatchUp(storage, Queue(s, s.disps[d].poller), d);
      |storage.gops| > 0 && Inv(after, s.history) && SameLimits(after, s.main)
  {
    hide Inv, CatchUp, Pending, TasksOk, RegisteredOk, ReaderOk, Synced;
    assert OneOk(s, d);
    var disp := s.disps[d];
    var q := Queue(s, disp.poller);
    var seen := s.history[..disp.pos];
    CatchUpInv(disp.storage, q, d, seen);
    assert seen + Pending(q, d) == s.history;
  }

  // Whatever was ignored, and for any number of GOPs: once caught up, a registered
  // replica equals the main cache if and only if it holds as many frames.
  lemma ConvergesIffSameSize<T>(maxSize: nat, maxGopSize: nat, events: seq<Event<T>>, d: nat)
    requires IsCurrent(Exec(Init<T>(maxSize, maxGopSize), events), d)
    ensures var s := Exec(Init(maxSize, maxGopSize), events);
      && |s.disps[d].storage.gops| > 0
      && var after := CatchUp(s.disps[d].storage, Queue(s, s.disps[d].poller), d);
        after == s.main <==> after.size == s.main.size
  {
    InitOk<T>(maxSize, maxGopSize);
    ExecOk(Init(maxSize, maxGopSize), events);
    var s := Exec(Init(maxSize, maxGopSize), events);
    CaughtUpOk(s, d);
    EqualIffSameSize(CatchUp(s.disps[d].storage, Queue(s, s.disps[d].poller), d), s.main, s.history);
  }

  // With one GOP, writing a key frame puts every registered replica back in step,
  // whatever it ignored before.
  lemma KeyFrameResynchronizes<T>(maxSize: nat, maxGopSize: nat, events: seq<Event<T>>, f: Frame<T>, d: nat)
    requires f.isKey
    requires var s := Exec(Init(maxSize, maxGopSize), events + [Event.Write(f)]);
      IsCurrent(s, d) && s.main.maxGopSize <= 1
    ensures var s := Exec(Init(maxSize, maxGopSize), events + [Event.Write(f)]);
      && |s.disps[d].storage.gops| > 0
      && CatchUp(s.disps[d].storage, Queue(s, s.disps[d].poller), d) == s.main
  {
    var init := Init<T>(maxSize, maxGopSize);
    InitOk<T>(maxSize, maxGopSize);
    ExecOk(init, events);
    ExecSnoc(init, events, Event.Write(f));
    var s := Exec(init, events);
    InvHasGop(s.main, s.history);
    WrittenIsPending(s, f, d);
    ReplicaConvergence(maxSize, maxGopSize, events + [Event.Write(f)], d);
  }

  lemma WrittenIsPending<T>(s: State<T>, f: Frame<T>, d: nat)
    requires Ok(s) && Enabled(s, Event.Write(f)) && f.isKey
    requires var s' := Apply(s, Event.Write(f)); IsCurrent(s', d) && s'.main.maxGopSize <= 1
    ensures var s' := Apply(s, Event.Write(f)); Synced(s'.disps[d], Queue(s', s'.disps[d].poller), d)
  {
    var disp := s.disps[d];
    assert IsCurrent(s, d) && OneOk(s, d);
    WriteKeepsLimits(s.main, f);
    hide GopCache.Write, Inv, CatchUp;
    var q := Queue(s, disp.poller);
    Snoc(disp.storage, q, WriteTask(d, f), d);
    NoKeySnoc(Pending(q, d), f);
  }

  // The GOP cache itself, after any run: the sizes agree, the limits hold, the
  // GOPs are formed, and the contents are the end of the history.
  lemma MainCacheInvariant<T>(maxSize: nat, maxGopSize: nat, events: seq<Event<T>>)
    ensures var s := Exec(Init(maxSize, maxGopSize), events);
      Inv(s.main, s.history)
  {
    InitOk<T>(maxSize, maxGopSize);
    ExecOk(Init(maxSize, maxGopSize), events);
  }

  // The writes and clears of a run, as the main cache sees them.
  function Ops<T>(events: seq<Event<T>>): seq<Op<T>> {
    if |events| == 0 then []
    else
      Ops(events[..|events| - 1]) +
      match events[|events| - 1]
      case Write(f) => [Put(f)]
      case ClearAll => [Op.Clear]
      case _ => []
  }

  // After any run, the main cache holds the whole current GOP as its newest one, if
  // and only if there is one that is no longer than the cache.
  lemma {:induction false} MainCachesCurrentGop<T>(maxSize: nat, maxGopSize: nat, events: seq<Event<T>>)
    ensures var s, gop := Exec(Init(maxSize, maxGopSize), events), CurrentGop(Ops(events));
      && |s.main.gops| > 0
      && (s.main.haveIdr <==> 0 < |gop| <= s.main.maxSize)
      && (s.main.haveIdr ==> Newest(s.main) == gop)
  {
    MainFollowsOps(maxSize, maxGopSize, events);
    CurrentGopIsCached(maxSize, maxGopSize, Ops(events));
  }

  lemma {:induction false} MainFollowsOps<T>(maxSize: nat, maxGopSize: nat, events: seq<Event<T>>)
    ensures Exec(Init(maxSize, maxGopSize), events).main == AfterOps(NewCache(maxSize, maxGopSize), Ops(events))
  {
    if |events| != 0 {
      var most, e := events[..|events| - 1], events[|events| - 1];
      MainFollowsOps(maxSize, maxGopSize, most);
      hide GopCache.Write, ClearCache, NewCache;
      assert Ops(most) + [] == Ops(most);
      if e.Write? {
        OpsSnoc(NewCache<T>(maxSize, maxGopSize), Ops(most), Put(e.frame));
      } else if e.ClearAll? {
        OpsSnoc(NewCache<T>(maxSize, maxGopSize), Ops(most), Op.Clear);
      } else if Enabled(Exec(Init(maxSize, maxGopSize), most), e) {
        MainUntouched(Exec(Init(maxSize, maxGopSize), most), e);
      }
    }
  }

  lemma MainUntouched<T>(s: State<T>, e: Event<T>)
    requires Enabled(s, e) && !e.Write? && !e.ClearAll?
    ensures Apply(s, e).main == s.main && Apply(s, e).history == s.history
  {
  }

  // ---- What a reader is given from one setReadCB on ----

  // While the reader is in the table with a live callback, it has been given
  // history[start..] as far as its dispatcher has got.
  ghost predicate From<T>(s: State<T>, d: nat, r: nat, start: nat) {
    && d in s.disps
    && (Listening(s, d, r) ==>
      start <= s.disps[d].pos <= |s.history|
      && s.disps[d].readers[r].delivered == s.history[start..s.disps[d].pos])
  }

  ghost predicate Listening<T>(s: State<T>, d: nat, r: nat) {
    d in s.disps && r in s.disps[d].readers && s.disps[d].readers[r].alive && s.disps[d].readers[r].callback
  }

  predicate Sets<T>(e: Event<T>, d: nat, r: nat) {
    e.SetCallback? && e.disp == d && e.reader == r
  }

  predicate Releases<T>(e: Event<T>, d: nat, r: nat) {
    e.Release? && e.disp == d && e.reader == r
  }

  // Where the frames that a callback is given begin: the replayed cache is the end of
  // what the dispatcher has absorbed.
  ghost function Start<T>(s: State<T>, d: nat, r: nat): int
    requires d in s.disps && r in s.disps[d].readers
  {
    var disp := s.disps[d];
    disp.pos - (if disp.readers[r].useCache then |Flatten(disp.storage.gops)| else 0)
  }

  lemma StartsFrom<T>(s: State<T>, d: nat, r: nat)
    requires Ok(s) && Enabled(s, SetCallback(d, r, true))
    ensures 0 <= Start(s, d, r) <= |Apply(s, SetCallback(d, r, true)).history|
    ensures var s' := Apply(s, SetCallback(d, r, true)); Listening(s', d, r) && From(s', d, r, Start(s, d, r))
  {
    hide Pending, CatchUp, TasksOk, RegisteredOk, Flatten;
    assert OneOk(s, d);
    var disp := s.disps[d];
    var frames := Flatten(disp.storage.gops);
    if disp.readers[r].useCache {
      assert s.history[..disp.pos][disp.pos - |frames|..] == s.history[disp.pos - |frames|..disp.pos];
    } else {
      assert s.history[disp.pos..disp.pos] == [];
    }
  }

  // Every step but setting that callback again.
  lemma KeepsFrom<T>(s: State<T>, e: Event<T>, d: nat, r: nat, start: nat)
    requires Ok(s) && Enabled(s, e) && From(s, d, r, start) && !Sets(e, d, r)
    ensures From(Apply(s, e), d, r, start)
  {
    hide Ok, Apply, Enabled, From, Sets;
    if e.Write? {
      HistoryGrows(s, e.frame, d, r, start);
    } else if e.RunTask? {
      RunKeepsFrom(s, e.poller, d, r, start);
    } else {
      QuietKeepsFrom(s, e, d, r, start);
    }
  }

  lemma QuietKeepsFrom<T>(s: State<T>, e: Event<T>, d: nat, r: nat, start: nat)
    requires Enabled(s, e) && !e.Write? && !e.RunTask? && From(s, d, r, start) && !Sets(e, d, r)
    ensures From(Apply(s, e), d, r, start)
  {
    hide ClearCache, Post, SetReadCB;
  }

  lemma HistoryGrows<T>(s: State<T>, f: Frame<T>, d: nat, r: nat, start: nat)
    requires Enabled(s, Event.Write(f)) && From(s, d, r, start)
    ensures From(Apply(s, Event.Write(f)), d, r, start)
  {
    hide GopCache.Write, Post;
    var pos := s.disps[d].pos;
    assert start <= pos <= |s.history| ==> (s.history + [f])[start..pos] == s.history[start..pos];
  }

  lemma RunKeepsFrom<T>(s: State<T>, p: nat, d: nat, r: nat, start: nat)
    requires Ok(s) && Enabled(s, RunTask(p)) && From(s, d, r, start)
    ensures From(Apply(s, RunTask(p)), d, r, start)
  {
    hide Ok, GopCache.Write, ClearCache;
    var t := Queue(s, p)[0];
    if t.disp == d && t.WriteTask? {
      HeadAddress(s, p);
      NextFrame(s, d);
      WriteKeepsFrom(s, p, d, r, start);
    } else if t.disp == d {
      OtherTask(s, p, d, r);
    } else {
      ForeignTask(s, p, d);
    }
  }

  lemma HeadAddress<T>(s: State<T>, p: nat)
    requires Ok(s) && Queue(s, p) != []
    ensures Queue(s, p)[0].disp in s.disps && s.disps[Queue(s, p)[0].disp].poller == p
  {
    TaskAddress(s, p);
  }

  lemma WriteKeepsFrom<T>(s: State<T>, p: nat, d: nat, r: nat, start: nat)
    requires Enabled(s, RunTask(p)) && From(s, d, r, start) && s.disps[d].pos < |s.history|
    requires Queue(s, p)[0] == WriteTask(d, s.history[s.disps[d].pos])
    ensures From(Apply(s, RunTask(p)), d, r, start)
  {
    hide GopCache.Write;
    var pos := s.disps[d].pos;
    if start <= pos {
      assert s.history[start..pos + 1] == s.history[start..pos] + [s.history[pos]];
    }
  }

  lemma OtherTask<T>(s: State<T>, p: nat, d: nat, r: nat)
    requires Enabled(s, RunTask(p)) && Queue(s, p)[0].disp == d && !Queue(s, p)[0].WriteTask?
    ensures var s' := Apply(s, RunTask(p));
      && s'.history == s.history && d in s'.disps && s'.disps[d].pos == s.disps[d].pos
      && (r in s'.disps[d].readers ==> r in s.disps[d].readers && s'.disps[d].readers[r] == s.disps[d].readers[r])
  {
    hide GopCache.Write, ClearCache;
  }

  lemma ForeignTask<T>(s: State<T>, p: nat, d: nat)
    requires Enabled(s, RunTask(p)) && Queue(s, p)[0].disp != d && d in s.disps
    ensures var s' := Apply(s, RunTask(p)); s'.history == s.history && d in s'.disps && s'.disps[d] == s.disps[d]
  {
    hide GopCache.Write, ClearCache;
  }

  // The write task at the head of a dispatcher's queue carries the next frame.
  lemma NextFrame<T>(s: State<T>, d: nat)
    requires Ok(s) && d in s.disps
    requires var q := Queue(s, s.disps[d].poller); q != [] && q[0].WriteTask? && q[0].disp == d
    ensures s.disps[d].pos < |s.history| && s.history[s.disps[d].pos] == Queue(s, s.disps[d].poller)[0].frame
  {
    assert OneOk(s, d);
    var disp := s.disps[d];
    var q := Queue(s, disp.poller);
    InvHasGop(disp.storage, s.history[..disp.pos]);
    FrontTask(disp.storage, q, d);
    var todo := Pending(q, d);
    hide Inv, Pending, CatchUp;
    assert todo[0] == q[0].frame && todo[0] == s.history[disp.pos];
  }

  lemma {:induction false} RunFrom<T>(s: State<T>, events: seq<Event<T>>, d: nat, r: nat, start: nat)
    requires Ok(s) && From(s, d, r, start)
    requires forall e | e in events :: !Sets(e, d, r)
    ensures Ok(Exec(s, events)) && From(Exec(s, events), d, r, start)
  {
    hide Ok, Apply, Enabled, From, Sets;
    ExecOk(s, events);
    if |events| != 0 {
      var most, e := events[..|events| - 1], events[|events| - 1];
      RunFrom(s, most, d, r, start);
      assert e in events;
      if Enabled(Exec(s, most), e) {
        KeepsFrom(Exec(s, most), e, d, r, start);
      }
    }
  }

  lemma DeliveredSoFar<T>(s: State<T>, d: nat, r: nat, start: nat)
    requires Ok(s) && Listening(s, d, r) && From(s, d, r, start)
    ensures IsCurrent(s, d) && start <= |s.history|
    ensures s.disps[d].readers[r].delivered + Pending(Queue(s, s.disps[d].poller), d) == s.history[start..]
  {
    hide Inv, Pending, CatchUp, TasksOk, RegisteredOk;
    var disp := s.disps[d];
    assert OneOk(s, d);
    assert disp.readers != map[];
    assert s.history[disp.pos..] == Pending(Queue(s, disp.poller), d);
    assert s.history[start..] == s.history[start..disp.pos] + s.history[disp.pos..];
  }

  predicate Attaches<T>(e: Event<T>, r: nat) {
    e.Attach? && e.reader == r
  }

  // The reader, while it is there, has been attached with or without a cache.
  ghost predicate Chosen<T>(s: State<T>, d: nat, r: nat, useCache: bool) {
    d in s.disps && (r in s.disps[d].readers ==> s.disps[d].readers[r].useCache == useCache)
  }

  // What attach leaves in the table: a live reader as asked for, with nothing given
  // to it yet, whose callback can be set and which can be released.
  lemma AttachChooses<T>(s: State<T>, p: nat, r: nat, useCache: bool)
    requires Enabled(s, Attach(p, r, useCache))
    ensures var s', d := Apply(s, Attach(p, r, useCache)), s.current[p];
      && d in s'.disps && r in s'.disps[d].readers && Chosen(s', d, r, useCache)
      && var reader := s'.disps[d].readers[r];
      && reader.alive && !reader.callback && reader.delivered == []
      && (forall some :: Enabled(s', SetCallback(d, r, some)))
      && (forall onPoller :: Enabled(s', Release(d, r, onPoller)))
  {
  }

  // What one step can do to a reader that it does not attach: its choice of a cache
  // stays, a dead reader stays dead, only setReadCB touches the callback, and only live
  // readers with a callback are given anything.
  ghost predicate Steady<T>(s: State<T>, e: Event<T>, d: nat, r: nat)
    requires Enabled(s, e) && d in s.disps
  {
    var s' := Apply(s, e);
    && d in s'.disps
    && (r in s'.disps[d].readers && !Attaches(e, r) ==>
      && r in s.disps[d].readers
      && var before, after := s.disps[d].readers[r], s'.disps[d].readers[r];
      && after.useCache == before.useCache && (after.alive ==> before.alive)
      && (Sets(e, d, r) || after.callback == before.callback)
      && (Sets(e, d, r) || (before.alive && before.callback) || after.delivered == before.delivered))
  }

  lemma RunIsSteady<T>(s: State<T>, p: nat, d: nat, r: nat)
    requires Enabled(s, RunTask(p)) && d in s.disps
    ensures Steady(s, RunTask(p), d, r)
  {
    hide GopCache.Write, ClearCache;
  }

  lemma StepIsSteady<T>(s: State<T>, e: Event<T>, d: nat, r: nat)
    requires Enabled(s, e) && d in s.disps && !e.RunTask?
    ensures Steady(s, e, d, r)
  {
    hide GopCache.Write, ClearCache, Post, Queue, Flatten;
  }

  lemma AlwaysSteady<T>(s: State<T>, e: Event<T>, d: nat, r: nat)
    requires Enabled(s, e) && d in s.disps
    ensures Steady(s, e, d, r)
  {
    hide Steady, Apply, Enabled;
    if e.RunTask? {
      RunIsSteady(s, e.poller, d, r);
    } else {
      StepIsSteady(s, e, d, r);
    }
  }

  lemma KeepsChoice<T>(s: State<T>, e: Event<T>, d: nat, r: nat, useCache: bool)
    requires Enabled(s, e) && Chosen(s, d, r, useCache) && !Attaches(e, r)
    ensures Chosen(Apply(s, e), d, r, useCache)
  {
    AlwaysSteady(s, e, d, r);
    hide Apply, Enabled, Attaches, Sets;
  }

  lemma {:induction false} RunChosen<T>(s: State<T>, events: seq<Event<T>>, d: nat, r: nat, useCache: bool)
    requires Chosen(s, d, r, useCache) && forall e | e in events :: !Attaches(e, r)
    ensures Chosen(Exec(s, events), d, r, useCache)
  {
    hide Apply, Enabled, Chosen, Attaches;
    if |events| != 0 {
      var most, e := events[..|events| - 1], events[|events| - 1];
      RunChosen(s, most, d, r, useCache);
      assert e in events;
      if Enabled(Exec(s, most), e) {
        KeepsChoice(Exec(s, most), e, d, r, useCache);
      }
    }
  }

  // After any run, a reader is attached, with or without a cache; later its callback is
  // set; then anything happens but setting it again. As long as the reader is there,
  // what the callback was given, followed by what is queued for it, is the replica's
  // cache if one was asked for, and every later write: no gap, no repetition, no
  // reordering, and nothing left out.
  lemma GapFreeDelivery<T>(maxSize: nat, maxGopSize: nat, before: seq<Event<T>>, p: nat, d: nat, r: nat,
                           useCache: bool, between: seq<Event<T>>, after: seq<Event<T>>)
    requires var s0 := Exec(Init(maxSize, maxGopSize), before);
      && Enabled(s0, Attach(p, r, useCache)) && d == s0.current[p]
      && Enabled(Exec(Apply(s0, Attach(p, r, useCache)), between), SetCallback(d, r, true))
    requires forall e | e in between :: !Attaches(e, r)
    requires forall e | e in after :: !Sets(e, d, r)
    ensures var s := Exec(Apply(Exec(Init(maxSize, maxGopSize), before), Attach(p, r, useCache)), between);
      var start := s.disps[d].pos - (if useCache then |Flatten(s.disps[d].storage.gops)| else 0);
      var end := Exec(Apply(s, SetCallback(d, r, true)), after);
      && 0 <= start <= |end.history|
      && (Listening(end, d, r) ==>
        && IsCurrent(end, d)
        && end.disps[d].readers[r].delivered + Pending(Queue(end, end.disps[d].poller), d) == end.history[start..])
  {
    hide Ok, Init, Exec, Apply, Listening, IsCurrent, Pending, Queue, Sets, Attaches, Chosen;
    InitOk<T>(maxSize, maxGopSize);
    ExecOk(Init<T>(maxSize, maxGopSize), before);
    var s0 := Exec(Init(maxSize, maxGopSize), before);
    AttachChooses(s0, p, r, useCache);
    ApplyOk(s0, Attach(p, r, useCache));
    var s1 := Apply(s0, Attach(p, r, useCache));
    ExecOk(s1, between);
    RunChosen(s1, between, d, r, useCache);
    var s := Exec(s1, between);
    StartIs(s, d, r, useCache);
    hide Enabled, Start;
    DeliveredFrom(s, after, d, r);
  }

  lemma StartIs<T>(s: State<T>, d: nat, r: nat, useCache: bool)
    requires Chosen(s, d, r, useCache) && r in s.disps[d].readers
    ensures Start(s, d, r) == s.disps[d].pos - (if useCache then |Flatten(s.disps[d].storage.gops)| else 0)
  {
  }

  lemma DeliveredFrom<T>(s: State<T>, after: seq<Event<T>>, d: nat, r: nat)
    requires Ok(s) && Enabled(s, SetCallback(d, r, true))
    requires forall e | e in after :: !Sets(e, d, r)
    ensures var start := Start(s, d, r);
      var end := Exec(Apply(s, SetCallback(d, r, true)), after);
      && 0 <= start <= |end.history|
      && (Listening(end, d, r) ==>
        && IsCurrent(end, d)
        && end.disps[d].readers[r].delivered + Pending(Queue(end, end.disps[d].poller), d) == end.history[start..])
  {
    hide Ok, Exec, Apply, From, Listening, IsCurrent, Pending, Queue, Start, Sets;
    var s', start := Apply(s, SetCallback(d, r, true)), Start(s, d, r);
    StartsFrom(s, d, r);
    ApplyOk(s, SetCallback(d, r, true));
    RunFrom(s', after, d, r, start);
    HistoryIsKept(s', after);
    if Listening(Exec(s', after), d, r) {
      DeliveredSoFar(Exec(s', after), d, r, start);
    }
  }

  // A live reader is not waiting to be detached.
  ghost predicate Kept<T>(s: State<T>, d: nat, r: nat) {
    d in s.disps && r in s.disps[d].readers && s.disps[d].readers[r].alive
    ==> DetachTask(d, r) !in Queue(s, s.disps[d].poller)
  }

  lemma KeptRelease<T>(s: State<T>, e: Event<T>, d: nat, r: nat)
    requires Enabled(s, e) && e.Release? && Kept(s, d, r)
    ensures Kept(Apply(s, e), d, r)
  {
    hide GopCache.Write, ClearCache;
    if e.disp == d && e.reader == r {
      assert var s' := Apply(s, e); r in s'.disps[d].readers ==> !s'.disps[d].readers[r].alive;
    }
  }

  // Running a task only takes readers and tasks away.
  lemma RunTakesAway<T>(s: State<T>, p: nat, d: nat, r: nat)
    requires Enabled(s, RunTask(p)) && d in s.disps
    ensures var s' := Apply(s, RunTask(p));
      && d in s'.disps && s'.disps[d].poller == s.disps[d].poller
      && s'.queues == s.queues[p := Queue(s, p)[1..]]
      && (r in s'.disps[d].readers ==>
        r in s.disps[d].readers && (s'.disps[d].readers[r].alive ==> s.disps[d].readers[r].alive))
  {
    hide GopCache.Write, ClearCache;
  }

  lemma KeptRun<T>(s: State<T>, p: nat, d: nat, r: nat)
    requires Enabled(s, RunTask(p)) && Kept(s, d, r)
    ensures Kept(Apply(s, RunTask(p)), d, r)
  {
    if d in s.disps {
      RunTakesAway(s, p, d, r);
      hide Apply;
      assert Queue(s, p)[0] in Queue(s, p);
    } else {
      hide GopCache.Write, ClearCache, Deliver;
    }
  }

  lemma KeptAttach<T>(s: State<T>, e: Event<T>, d: nat, r: nat)
    requires RegisteredOk(s) && Enabled(s, e) && e.Attach? && Kept(s, d, r)
    ensures Kept(Apply(s, e), d, r)
  {
  }

  lemma KeptPost<T>(s: State<T>, e: Event<T>, d: nat, r: nat)
    requires Enabled(s, e) && (e.Write? || e.ClearAll?) && Kept(s, d, r)
    ensures Kept(Apply(s, e), d, r)
  {
    hide GopCache.Write, ClearCache;
  }

  lemma KeptOk<T>(s: State<T>, e: Event<T>, d: nat, r: nat)
    requires Ok(s) && Enabled(s, e) && Kept(s, d, r)
    ensures Kept(Apply(s, e), d, r)
  {
    hide AllOk, TasksOk, RegisteredOk, Inv, Apply, Enabled, Kept;
    match e
    case Write(_) => KeptPost(s, e, d, r);
    case ClearAll => KeptPost(s, e, d, r);
    case Attach(_, _, _) => KeptAttach(s, e, d, r);
    case Release(_, _, _) => KeptRelease(s, e, d, r);
    case RunTask(p) => KeptRun(s, p, d, r);
    case _ => KeptQuiet(s, e, d, r);
  }

  lemma KeptQuiet<T>(s: State<T>, e: Event<T>, d: nat, r: nat)
    requires Enabled(s, e) && (e.Lookup? || e.SetCallback?) && Kept(s, d, r)
    ensures Kept(Apply(s, e), d, r)
  {
  }

  lemma {:induction false} RunKept<T>(s: State<T>, events: seq<Event<T>>, d: nat, r: nat)
    requires Ok(s) && Kept(s, d, r)
    ensures Kept(Exec(s, events), d, r)
  {
    hide Ok, Apply, Enabled, Kept;
    if |events| != 0 {
      var most, e := events[..|events| - 1], events[|events| - 1];
      RunKept(s, most, d, r);
      ExecOk(s, most);
      if Enabled(Exec(s, most), e) {
        KeptOk(Exec(s, most), e, d, r);
      }
    }
  }

  lemma StaysThroughRun<T>(s: State<T>, p: nat, d: nat, r: nat)
    requires TasksOk(s) && Enabled(s, RunTask(p)) && Kept(s, d, r) && Listening(s, d, r)
    ensures Listening(Apply(s, RunTask(p)), d, r)
  {
    TaskAddress(s, p);
    hide GopCache.Write, ClearCache, TasksOk;
  }

  lemma StaysListening<T>(s: State<T>, e: Event<T>, d: nat, r: nat)
    requires Ok(s) && Enabled(s, e) && Kept(s, d, r) && Listening(s, d, r) && !Sets(e, d, r) && !Releases(e, d, r)
    ensures Listening(Apply(s, e), d, r)
  {
    hide AllOk, TasksOk, RegisteredOk, Inv, Apply, Enabled, Kept, Listening, Sets, Releases;
    if e.RunTask? {
      StaysThroughRun(s, e.poller, d, r);
    } else {
      StaysElsewhere(s, e, d, r);
    }
  }

  lemma StaysElsewhere<T>(s: State<T>, e: Event<T>, d: nat, r: nat)
    requires Enabled(s, e) && !e.RunTask? && Listening(s, d, r) && !Sets(e, d, r) && !Releases(e, d, r)
    ensures Listening(Apply(s, e), d, r)
  {
    hide GopCache.Write, ClearCache, Queue, Post, SetReadCB;
  }

  lemma {:induction false} RunListening<T>(s: State<T>, events: seq<Event<T>>, d: nat, r: nat)
    requires Ok(s) && Kept(s, d, r) && Listening(s, d, r)
    requires forall e | e in events :: !Sets(e, d, r) && !Releases(e, d, r)
    ensures Listening(Exec(s, events), d, r)
  {
    hide Ok, Apply, Enabled, Kept, Listening, Sets, Releases;
    if |events| != 0 {
      var most, e := events[..|events| - 1], events[|events| - 1];
      RunListening(s, most, d, r);
      RunKept(s, most, d, r);
      ExecOk(s, most);
      assert e in events;
      if Enabled(Exec(s, most), e) {
        StaysListening(Exec(s, most), e, d, r);
      }
    }
  }

  // Until it is released, the reader stays in the table with its callback.
  lemma ReaderStays<T>(maxSize: nat, maxGopSize: nat, before: seq<Event<T>>, after: seq<Event<T>>, d: nat, r: nat)
    requires Enabled(Exec(Init(maxSize, maxGopSize), before), SetCallback(d, r, true))
    requires forall e | e in after :: !Sets(e, d, r) && !Releases(e, d, r)
    ensures var s := Exec(Init(maxSize, maxGopSize), before);
      Listening(Exec(Apply(s, SetCallback(d, r, true)), after), d, r)
  {
    var s := Exec(Init<T>(maxSize, maxGopSize), before);
    InitOk<T>(maxSize, maxGopSize);
    assert Kept(Init<T>(maxSize, maxGopSize), d, r);
    hide Ok, Init, Exec, Apply, Enabled, Kept, Listening, Sets, Releases;
    ExecOk(Init<T>(maxSize, maxGopSize), before);
    RunKept(Init<T>(maxSize, maxGopSize), before, d, r);
    StartsFrom(s, d, r);
    ApplyOk(s, SetCallback(d, r, true));
    KeptOk(s, SetCallback(d, r, true), d, r);
    RunListening(Apply(s, SetCallback(d, r, true)), after, d, r);
  }

  lemma {:induction false} HistoryIsKept<T>(s: State<T>, events: seq<Event<T>>)
    ensures |s.history| <= |Exec(s, events).history|
  {
    if |events| != 0 {
      var most, e := events[..|events| - 1], events[|events| - 1];
      HistoryIsKept(s, most);
      var now := Exec(s, most);
      if Enabled(now, e) && !e.Write? && !e.ClearAll? {
        MainUntouched(now, e);
      }
      hide GopCache.Write;
    }
  }

  // A released reader is dead or gone, and is never handed anything again.
  ghost predicate Silent<T>(s: State<T>, d: nat, r: nat, got: seq<Frame<T>>) {
    && d in s.disps
    && (r in s.disps[d].readers ==> !s.disps[d].readers[r].alive && s.disps[d].readers[r].delivered == got)
  }

  lemma ReleaseSilences<T>(s: State<T>, d: nat, r: nat, onPoller: bool)
    requires Enabled(s, Release(d, r, onPoller))
    ensures var s' := Apply(s, Release(d, r, onPoller));
      && Silent(s', d, r, s.disps[d].readers[r].delivered)
      && (if onPoller then r !in s'.disps[d].readers else DetachTask(d, r) in Queue(s', s.disps[d].poller))
  {
  }

  // A reader whose callback has been taken away is handed nothing until it is set again.
  ghost predicate Muted<T>(s: State<T>, d: nat, r: nat, got: seq<Frame<T>>) {
    && d in s.disps
    && (r in s.disps[d].readers ==> !s.disps[d].readers[r].callback && s.disps[d].readers[r].delivered == got)
  }

  lemma StaysMuted<T>(s: State<T>, e: Event<T>, d: nat, r: nat, got: seq<Frame<T>>)
    requires Enabled(s, e) && Muted(s, d, r, got) && !Attaches(e, r) && !Sets(e, d, r)
    ensures Muted(Apply(s, e), d, r, got)
  {
    AlwaysSteady(s, e, d, r);
    hide Apply, Enabled, Attaches, Sets;
  }

  lemma {:induction false} RunMuted<T>(s: State<T>, events: seq<Event<T>>, d: nat, r: nat, got: seq<Frame<T>>)
    requires Muted(s, d, r, got) && forall e | e in events :: !Attaches(e, r) && !Sets(e, d, r)
    ensures Muted(Exec(s, events), d, r, got)
  {
    hide Apply, Enabled, Muted, Attaches, Sets;
    if |events| != 0 {
      var most, e := events[..|events| - 1], events[|events| - 1];
      RunMuted(s, most, d, r, got);
      assert e in events;
      if Enabled(Exec(s, most), e) {
        StaysMuted(Exec(s, most), e, d, r, got);
      }
    }
  }

  lemma NothingWithoutCallback<T>(s: State<T>, d: nat, r: nat, after: seq<Event<T>>)
    requires Enabled(s, SetCallback(d, r, false))
    requires forall e | e in after :: !Attaches(e, r) && !Sets(e, d, r)
    ensures Muted(Exec(Apply(s, SetCallback(d, r, false)), after), d, r, s.disps[d].readers[r].delivered)
  {
    assert Muted(Apply(s, SetCallback(d, r, false)), d, r, s.disps[d].readers[r].delivered);
    hide Apply, Exec, Muted, Attaches, Sets;
    RunMuted(Apply(s, SetCallback(d, r, false)), after, d, r, s.disps[d].readers[r].delivered);
  }

  // The posted detach takes the reader out of the table.
  lemma DetachRemoves<T>(s: State<T>, p: nat, d: nat, r: nat)
    requires Enabled(s, RunTask(p)) && Queue(s, p)[0] == DetachTask(d, r)
    ensures var s' := Apply(s, RunTask(p)); d in s'.disps && s'.disps[d].readers == s.disps[d].readers - {r}
  {
  }

  lemma StaysSilent<T>(s: State<T>, e: Event<T>, d: nat, r: nat, got: seq<Frame<T>>)
    requires Enabled(s, e) && Silent(s, d, r, got) && !Attaches(e, r)
    ensures Silent(Apply(s, e), d, r, got)
  {
    AlwaysSteady(s, e, d, r);
    hide Apply, Enabled, Attaches, Sets;
  }

  lemma {:induction false} RunSilent<T>(s: State<T>, events: seq<Event<T>>, d: nat, r: nat, got: seq<Frame<T>>)
    requires Silent(s, d, r, got) && forall e | e in events :: !Attaches(e, r)
    ensures Silent(Exec(s, events), d, r, got)
  {
    hide Apply, Enabled, Silent, Attaches;
    if |events| != 0 {
      var most, e := events[..|events| - 1], events[|events| - 1];
      RunSilent(s, most, d, r, got);
      assert e in events;
      if Enabled(Exec(s, most), e) {
        StaysSilent(Exec(s, most), e, d, r, got);
      }
    }
  }

  // After its release, a reader gets nothing more in any run.
  lemma NothingAfterRelease<T>(s: State<T>, d: nat, r: nat, onPoller: bool, after: seq<Event<T>>)
    requires Enabled(s, Release(d, r, onPoller)) && forall e | e in after :: !Attaches(e, r)
    ensures Silent(Exec(Apply(s, Release(d, r, onPoller)), after), d, r, s.disps[d].readers[r].delivered)
  {
    ReleaseSilences(s, d, r, onPoller);
    hide Apply, Exec, Silent, Attaches;
    RunSilent(Apply(s, Release(d, r, onPoller)), after, d, r, s.disps[d].readers[r].delivered);
  }

  lemma TaskUnregisters<T>(s: State<T>, p: nat, d: nat)
    requires Enabled(s, RunTask(p)) && IsCurrent(s, d)
    requires var t := Queue(s, p)[0];
      s.disps[t.disp].poller == p && (s.disps[t.disp].readers != map[] ==> IsCurrent(s, t.disp))
    ensures var s' := Apply(s, RunTask(p));
      d in s'.disps && (!IsCurrent(s', d) <==> s.disps[d].readers != map[] && s'.disps[d].readers == map[])
  {
    hide GopCache.Write, ClearCache, Deliver;
    var t := Queue(s, p)[0];
    var readers := s.disps[t.disp].readers;
    match t
    case WriteTask(_, f) => DeliverNone(readers, f);
    case ClearTask(_) =>
    case DetachTask(_, r) => assert readers == map[] ==> readers - {r} == map[];
  }

  lemma ReleaseUnregisters<T>(s: State<T>, e: Event<T>, d: nat)
    requires Enabled(s, e) && e.Release? && IsCurrent(s, d)
    requires s.disps[e.disp].readers != map[] ==> IsCurrent(s, e.disp)
    ensures var s' := Apply(s, e);
      d in s'.disps && (!IsCurrent(s', d) <==> s.disps[d].readers != map[] && s'.disps[d].readers == map[])
  {
    assert s.disps[e.disp].readers != map[];
    if e.onPoller {
    } else {
      assert e.reader in Apply(s, e).disps[e.disp].readers;
    }
  }

  lemma OthersStayRegistered<T>(s: State<T>, e: Event<T>, d: nat)
    requires Enabled(s, e) && !e.Release? && !e.RunTask? && IsCurrent(s, d)
    ensures var s' := Apply(s, e);
      d in s'.disps && IsCurrent(s', d) && (s.disps[d].readers != map[] ==> s'.disps[d].readers != map[])
  {
    hide GopCache.Write, ClearCache, Post, Queue;
    if e.SetCallback? {
      assert e.reader in Apply(s, e).disps[e.disp].readers;
    } else if e.Attach? {
      assert e.reader in Apply(s, e).disps[s.current[e.poller]].readers;
    }
  }

  lemma HasReaders<T>(s: State<T>, d: nat)
    requires Ok(s) && d in s.disps && s.disps[d].readers != map[]
    ensures IsCurrent(s, d)
  {
    assert OneOk(s, d);
  }

  // A registered dispatcher leaves the map of the ring exactly when its last reader goes.
  lemma UnregisteredIffEmptied<T>(s: State<T>, e: Event<T>, d: nat)
    requires Ok(s) && Enabled(s, e) && IsCurrent(s, d)
    ensures var s' := Apply(s, e);
      d in s'.disps && (!IsCurrent(s', d) <==> s.disps[d].readers != map[] && s'.disps[d].readers == map[])
  {
    hide Ok, Apply, IsCurrent;
    if e.RunTask? {
      HeadAddress(s, e.poller);
      var t := Queue(s, e.poller)[0].disp;
      if s.disps[t].readers != map[] {
        HasReaders(s, t);
      }
      TaskUnregisters(s, e.poller, d);
    } else if e.Release? {
      HasReaders(s, e.disp);
      ReleaseUnregisters(s, e, d);
    } else {
      OthersStayRegistered(s, e, d);
    }
  }

  // A reader with a cache starts with the replica's cache, which is the end of
  // what the replica has absorbed; with one GOP it starts at a key frame.
  lemma ReplayIsCache<T>(maxSize: nat, maxGopSize: nat, events: seq<Event<T>>, d: nat, r: nat)
    requires var s := Exec(Init(maxSize, maxGopSize), events);
      Enabled(s, SetCallback(d, r, true)) && s.disps[d].readers[r].useCache
    ensures var s := Exec(Init(maxSize, maxGopSize), events);
      var reader := Apply(s, SetCallback(d, r, true)).disps[d].readers[r];
      var storage := s.disps[d].storage;
      && s.disps[d].pos <= |s.history|
      && reader.delivered == Flatten(storage.gops)
      && IsSuffix(reader.delivered, s.history[..s.disps[d].pos])
      && (storage.maxGopSize <= 1 && storage.started && reader.delivered != [] ==> reader.delivered[0].isKey)
  {
    InitOk<T>(maxSize, maxGopSize);
    ExecOk(Init(maxSize, maxGopSize), events);
    hide Ok, Init, Exec;
    var s := Exec(Init(maxSize, maxGopSize), events);
    ReplayFrom(s, d, r);
  }

  lemma ReplayFrom<T>(s: State<T>, d: nat, r: nat)
    requires Ok(s) && Enabled(s, SetCallback(d, r, true)) && s.disps[d].readers[r].useCache
    ensures var reader := Apply(s, SetCallback(d, r, true)).disps[d].readers[r];
      var storage := s.disps[d].storage;
      && s.disps[d].pos <= |s.history|
      && reader.delivered == Flatten(storage.gops)
      && IsSuffix(reader.delivered, s.history[..s.disps[d].pos])
      && (storage.maxGopSize <= 1 && storage.started && reader.delivered != [] ==> reader.delivered[0].isKey)
  {
    hide Pending, CatchUp, TasksOk, Flatten;
    assert OneOk(s, d);
    var storage := s.disps[d].storage;
    if storage.maxGopSize <= 1 && storage.started && Flatten(storage.gops) != [] {
      SingleGopStartsWithKey(storage, s.history[..s.disps[d].pos]);
    }
  }

  // ---- clearCache reaches a replica only if it has no readers ----

  lemma ClearRunIff<T>(disp: Disp<T>, main: Cache<T>, history: seq<Frame<T>>, q: seq<Task<T>>, d: nat)
    requires |q| > 0 && q[0] == ClearTask(d) && DispOk(disp, history, q, d) && Inv(main, history)
    requires InStep(disp, main, history, q, d) && Synced(disp, q, d)
    ensures CatchUp(Clear(disp).storage, q[1..], d) == main
      <==> disp.readers == map[] || CatchUp(disp.storage, q[1..], d).size == main.size
  {
    hide Inv, GopCache.Write, ClearCache, ReaderOk, NoKey, Pending, CatchUp, Synced;
    FrontTask(disp.storage, q, d);
    var seen, rest := history[..disp.pos], Pending(q[1..], d);
    assert [] + rest == rest && seen + rest == history;
    CatchUpInv(disp.storage, q[1..], d, seen);
    EqualIffSameSize(CatchUp(disp.storage, q[1..], d), main, history);
  }

  // When a dispatcher in step runs a clear task, its replica stays on the way to
  // the main cache if and only if it has no readers, or keeps its frames and still
  // ends up with as many as the main cache once the tasks behind have run.
  lemma ClearReachesReplicaIff<T>(maxSize: nat, maxGopSize: nat, events: seq<Event<T>>, d: nat)
    requires var s := Exec(Init<T>(maxSize, maxGopSize), events);
      && IsCurrent(s, d)
      && var disp := s.disps[d];
        var q := Queue(s, disp.poller);
        |q| > 0 && q[0] == ClearTask(d) && Synced(disp, q, d)
    ensures var s := Exec(Init<T>(maxSize, maxGopSize), events);
      var disp := s.disps[d];
      var rest := Queue(s, disp.poller)[1..];
      && |disp.storage.gops| > 0
      && (CatchUp(Clear(disp).storage, rest, d) == s.main
          <==> disp.readers == map[] || CatchUp(disp.storage, rest, d).size == s.main.size)
  {
    InitOk<T>(maxSize, maxGopSize);
    ExecOk(Init(maxSize, maxGopSize), events);
    hide Init, Exec, Synced, Inv, TasksOk, CatchUp, Pending;
    var s := Exec(Init<T>(maxSize, maxGopSize), events);
    assert OneOk(s, d);
    ClearRunIff(s.disps[d], s.main, s.history, Queue(s, s.disps[d].poller), d);
  }

  // A run in which it does not: a reader is attached, a key frame is written
  // and delivered, the cache is cleared.
  const KEYED: Cache<int> := Cache(true, true, 1, 32, 1, [[Frame(true, 7)]])
  const FRESH: Cache<int> := Cache(false, false, 0, 32, 1, [[]])
  const CLEARED: Cache<int> := Cache(true, false, 0, 32, 1, [[]])

  function OneReader(main: Cache<int>, storage: Cache<int>, history: seq<Frame<int>>, pos: nat, skipped: bool,
                     q: seq<Task<int>>): State<int>
  {
    State(main, history, map[0 := 0], map[0 := Disp(0, storage, map[0 := NewReader(true)], pos, skipped)], map[0 := q])
  }

  const EVENTS: seq<Event<int>> :=
    [Lookup(0, 0), Attach(0, 0, true), Event.Write(Frame(true, 7)), RunTask(0), ClearAll, RunTask(0)]

  lemma ReaderAttached()
    ensures var s := Exec(Init<int>(32, 1), EVENTS[..2]);
      s == OneReader(FRESH, FRESH, [], 0, false, []).(queues := map[])
  {
    var s1 := State(FRESH, [], map[0 := 0], map[0 := Disp(0, FRESH, map[], 0, false)], map[]);
    ExecSnoc(Init<int>(32, 1), [], EVENTS[0]);
    ExecSnoc(Init<int>(32, 1), [EVENTS[0]], EVENTS[1]);
    assert [] + [EVENTS[0]] == [EVENTS[0]] && [EVENTS[0]] + [EVENTS[1]] == EVENTS[..2];
    assert Exec(Init<int>(32, 1), [EVENTS[0]]) == s1;
    assert Enabled(s1, EVENTS[1]);
  }

  lemma KeyFrameIsCached()
    ensures GopCache.Write(FRESH, Frame(true, 7)) == KEYED
  {
    var gops: seq<Gop<int>> := [[]];
    assert gops[..0] == [] && gops[0] + [Frame(true, 7)] == [Frame(true, 7)];
    assert Push(gops, Frame(true, 7)) == [[Frame(true, 7)]];
  }

  lemma FrameWritten()
    ensures var s := OneReader(FRESH, FRESH, [], 0, false, []).(queues := map[]);
      && Enabled(s, EVENTS[2])
      && Apply(s, EVENTS[2]) == OneReader(KEYED, FRESH, [Frame(true, 7)], 0, false, [WriteTask(0, Frame(true, 7))])
  {
    hide GopCache.Write;
    KeyFrameIsCached();
    var s := OneReader(FRESH, FRESH, [], 0, false, []).(queues := map[]);
    var s' := Apply(s, EVENTS[2]);
    assert s'.queues.Keys == {0} && s'.queues[0] == [WriteTask(0, Frame(true, 7))];
    assert s'.history == [Frame(true, 7)];
  }

  lemma FrameDelivered()
    ensures var s := OneReader(KEYED, FRESH, [Frame(true, 7)], 0, false, [WriteTask(0, Frame(true, 7))]);
      && Enabled(s, EVENTS[3])
      && Apply(s, EVENTS[3]) == OneReader(KEYED, KEYED, [Frame(true, 7)], 1, false, [])
  {
    hide GopCache.Write;
    KeyFrameIsCached();
    var readers := map[0 := NewReader<int>(true)];
    assert Deliver(readers, Frame(true, 7)) == readers;
    assert 0 in readers;
  }

  lemma ClearSkipped()
    ensures var s := OneReader(KEYED, KEYED, [Frame(true, 7)], 1, false, []);
      && Enabled(s, EVENTS[4])
      && Apply(s, EVENTS[4]) == OneReader(CLEARED, KEYED, [Frame(true, 7)], 1, false, [ClearTask(0)])
    ensures var s := OneReader(CLEARED, KEYED, [Frame(true, 7)], 1, false, [ClearTask(0)]);
      && Enabled(s, EVENTS[5])
      && Apply(s, EVENTS[5]) == OneReader(CLEARED, KEYED, [Frame(true, 7)], 1, true, [])
  {
    var readers := map[0 := NewReader<int>(true)];
    assert 0 in readers;
    var s' := Apply(OneReader(KEYED, KEYED, [Frame(true, 7)], 1, false, []), EVENTS[4]);
    assert s'.queues.Keys == {0} && s'.queues[0] == [ClearTask(0)];
  }

  lemma ExecSnoc<T>(s: State<T>, events: seq<Event<T>>, e: Event<T>)
    ensures var before := Exec(s, events);
      Exec(s, events + [e]) == if Enabled(before, e) then Apply(before, e) else before
  {
    hide Enabled, Apply;
    assert (events + [e])[..|events|] == events;
  }

  lemma SkippedClearDiverges()
    ensures Exec(Init<int>(32, 1), EVENTS) == OneReader(CLEARED, KEYED, [Frame(true, 7)], 1, true, [])
    ensures CLEARED != KEYED
  {
    hide Enabled, Apply;
    var s0 := Init<int>(32, 1);
    ReaderAttached();
    FrameWritten();
    FrameDelivered();
    ClearSkipped();
    ExecSnoc(s0, EVENTS[..2], EVENTS[2]);
    assert EVENTS[..2] + [EVENTS[2]] == EVENTS[..3];
    ExecSnoc(s0, EVENTS[..3], EVENTS[3]);
    assert EVENTS[..3] + [EVENTS[3]] == EVENTS[..4];
    ExecSnoc(s0, EVENTS[..4], EVENTS[4]);
    assert EVENTS[..4] + [EVENTS[4]] == EVENTS[..5];
    ExecSnoc(s0, EVENTS[..5], EVENTS[5]);
    assert EVENTS[..5] + [EVENTS[5]] == EVENTS;
  }
}
