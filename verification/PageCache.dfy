/** Merging per-page readings whose codes do not overlap, on maps alone. */
module PageMerge {
  import opened Bytes
  import opened Codes
  import opened Iteration

  type Values = map<Code, real>

  /** The readings of the listed pages, merged in that order. */
  function Union(order: seq<byte>, read: map<byte, Values>): Values
    requires forall k :: k in order ==> k in read
  {
    if order == [] then map[] else Union(order[..|order| - 1], read) + read[order[|order| - 1]]
  }

  /** Each code is read from one page only. */
  ghost predicate Separated(read: map<byte, Values>, pageOf: Code -> byte) {
    forall k, c :: k in read && c in read[k] ==> pageOf(c) == k
  }

  ghost predicate Reflected(read: map<byte, Values>, known: Values) {
    forall k, c :: k in read && c in read[k] ==> c in known && known[c] == read[k][c]
  }

  lemma {:induction false} UnionAt(order: seq<byte>, read: map<byte, Values>, pageOf: Code -> byte, c: Code)
    requires Separated(read, pageOf) && forall k :: k in order ==> k in read
    ensures var u, k := Union(order, read), pageOf(c);
            && (c in u <==> k in order && c in read[k])
            && (c in u ==> u[c] == read[k][c])
  {
    if order != [] { UnionAt(order[..|order| - 1], read, pageOf, c); }
  }

  /** Merging everything buffered again, in any order, after one page was replaced adds
      exactly the new page's reading. */
  lemma UnionIsIncremental(read: map<byte, Values>, known: Values, key: byte, one: Values,
                           order: seq<byte>, pageOf: Code -> byte)
    requires Separated(read[key := one], pageOf) && Reflected(read - {key}, known)
    requires Lists(order, read[key := one].Keys)
    ensures known + Union(order, read[key := one]) == known + one
    ensures Reflected(read[key := one], known + one)
  {
    var now := read[key := one];
    var u := Union(order, now);
    forall c ensures (c in known + u <==> c in known + one) && (c in known + u ==> (known + u)[c] == (known + one)[c]) {
      UnionAt(order, now, pageOf, c);
      assert key in now && now[key] == one;
      if c in one { assert pageOf(c) == key; }
      if c in u && pageOf(c) != key {
        assert now[pageOf(c)] == (read - {key})[pageOf(c)];
      }
    }
    assert (known + u).Keys == (known + one).Keys;
    assert forall c :: c in now[key] ==> pageOf(c) == key;
    forall k, c | k in now && c in now[k] ensures c in known + one && (known + one)[c] == now[k][c] {
      assert pageOf(c) == k;
      if k != key {
        assert now[k] == (read - {key})[k];
      }
    }
  }
}

/** The paged read-back cache: it buffers the latest reply per page, re-decodes the whole
    buffer on every reply, and merges the result into what is already known. */
module PageCache {
  import opened Wrappers
  import opened Iteration
  import opened Bytes
  import opened Codes
  import opened ProtectionRead
  import opened PageMerge

  type Uid = string
  type Frame = seq<byte>

  /** Each received frame decoded alone, later frames overriding earlier ones. */
  function Fold(fam: Family, fs: seq<Frame>): map<Code, real> {
    if fs == [] then map[] else Fold(fam, fs[..|fs| - 1]) + DecodeFrame(fam, fs[|fs| - 1])
  }

  /** The latest frame that carried a code, or -1. */
  function LastCarrier(fam: Family, fs: seq<Frame>, c: Code): (r: int)
    ensures -1 <= r < |fs|
  {
    if fs == [] then -1
    else if c in DecodeFrame(fam, fs[|fs| - 1]) then |fs| - 1
    else LastCarrier(fam, fs[..|fs| - 1], c)
  }

  lemma {:induction false} LastCarrierIsLast(fam: Family, fs: seq<Frame>, c: Code)
    ensures var r := LastCarrier(fam, fs, c);
            && (r >= 0 ==> c in DecodeFrame(fam, fs[r]))
            && forall k :: r < k < |fs| ==> c !in DecodeFrame(fam, fs[k])
  {
    hide DecodeFrame;
    if fs != [] {
      var before := fs[..|fs| - 1];
      LastCarrierIsLast(fam, before, c);
      assert forall k :: 0 <= k < |before| ==> fs[k] == before[k];
    }
  }

  /** The fold is "latest value per code". */
  lemma {:induction false} FoldIsLatest(fam: Family, fs: seq<Frame>, c: Code)
    ensures var r := LastCarrier(fam, fs, c);
            && (c in Fold(fam, fs) <==> r >= 0)
            && (c in Fold(fam, fs) ==> c in DecodeFrame(fam, fs[r]) && Fold(fam, fs)[c] == DecodeFrame(fam, fs[r])[c])
  {
    hide DecodeFrame;
    LastCarrierIsLast(fam, fs, c);
    if fs != [] { FoldIsLatest(fam, fs[..|fs| - 1], c); }
  }

  function FramesIn(order: seq<byte>, pages: map<byte, Frame>): seq<Frame>
    requires forall k :: k in order ==> k in pages
  {
    if order == [] then [] else FramesIn(order[..|order| - 1], pages) + [pages[order[|order| - 1]]]
  }

  ghost predicate Keyed(fam: Family, pages: map<byte, Frame>) {
    forall k :: k in pages ==> |pages[k]| >= 5 && PageKey(fam, pages[k]) == k
  }

  function Decoded(fam: Family, pages: map<byte, Frame>): map<byte, map<Code, real>> {
    map k | k in pages :: DecodeFrame(fam, pages[k])
  }

  lemma {:induction false} DecodeFramesIsUnion(fam: Family, pages: map<byte, Frame>, order: seq<byte>)
    requires forall k :: k in order ==> k in pages
    ensures DecodeFrames(fam, FramesIn(order, pages)) == Union(order, Decoded(fam, pages))
  {
    if order != [] {
      DecodeFramesIsUnion(fam, pages, order[..|order| - 1]);
      var frames := FramesIn(order, pages);
      assert frames[..|frames| - 1] == FramesIn(order[..|order| - 1], pages);
    }
  }

  /** A code can only come from its own page. */
  lemma CodeComesFromItsPage(fam: Family, f: Frame, c: Code)
    requires |f| >= 5 && c in DecodeFrame(fam, f)
    ensures PageKey(fam, f) == PageOf(fam, c)
  {
    var key := PageKey(fam, f);
    TableValuesCodes(f, BaseOf(fam), TableOf(fam, key));
    var i :| 0 <= i < |TableOf(fam, key)| && TableOf(fam, key)[i].code == c;
    TableOnItsPage(fam, key, i);
  }

  lemma DecodedSeparated(fam: Family, pages: map<byte, Frame>)
    requires Keyed(fam, pages)
    ensures Separated(Decoded(fam, pages), c => PageOf(fam, c))
  {
    forall k, c | k in pages && c in DecodeFrame(fam, pages[k]) ensures PageOf(fam, c) == k {
      CodeComesFromItsPage(fam, pages[k], c);
    }
  }

  /** Re-decoding the whole buffer, in any order, after one more reply adds exactly what that
      reply says on its own. */
  lemma RedecodeIsIncremental(fam: Family, pages: map<byte, Frame>, known: map<Code, real>, f: Frame, order: seq<byte>)
    requires Keyed(fam, pages) && Reflected(Decoded(fam, pages), known) && |f| >= 5
    requires Lists(order, pages[PageKey(fam, f) := f].Keys)
    ensures var now := pages[PageKey(fam, f) := f];
            && known + DecodeFrames(fam, FramesIn(order, now)) == known + DecodeFrame(fam, f)
            && Keyed(fam, now) && Reflected(Decoded(fam, now), known + DecodeFrame(fam, f))
  {
    hide DecodeFrame, DecodeFrames, PageKey, FramesIn, Union, PageOf;
    var key, one := PageKey(fam, f), DecodeFrame(fam, f);
    var now, read := pages[key := f], Decoded(fam, pages);
    assert Decoded(fam, now) == read[key := one];
    DecodedSeparated(fam, now);
    assert Reflected(read - {key}, known);
    UnionIsIncremental(read, known, key, one, order, c => PageOf(fam, c));
    DecodeFramesIsUnion(fam, now, order);
  }

  ghost predicate UidOk(fam: Family, pages: map<byte, Frame>, known: map<Code, real>) {
    Keyed(fam, pages) && Reflected(Decoded(fam, pages), known)
  }

  /** The two families with protection read-back, as the driver tells them apart. */
  function FamOf(ds3: bool): Family { if ds3 then FamilyDS3 else FamilyQS1 }

  class Cache {
    ghost const isDs3: Uid -> bool
    var family: map<Uid, bool>   // what telemetry has told: is it a DS3?
    var pages: map<Uid, map<byte, Frame>>
    var values: map<Uid, map<Code, real>>
    var seqNo: map<Uid, nat>

    ghost function Known(u: Uid): map<Code, real>
      reads this
    {
      if u in values then values[u] else map[]
    }

    ghost function Buffered(u: Uid): map<byte, Frame>
      reads this
    {
      if u in pages then pages[u] else map[]
    }

    ghost predicate Valid()
      reads this
    {
      && (forall u :: u in family ==> family[u] == isDs3(u))
      && forall u :: UidOk(FamOf(isDs3(u)), Buffered(u), Known(u))
    }

    constructor (ghost isDs3: Uid -> bool)
      ensures Valid() && this.isDs3 == isDs3 && family == map[] && forall u :: Known(u) == map[]
    {
      this.isDs3 := isDs3;
      family, pages, values, seqNo := map[], map[], map[], map[];
    }

    /** Telemetry names the inverter's family. */
    method NoteFamily(uid: Uid, ds3: bool)
      requires Valid() && ds3 == isDs3(uid)
      modifies `family
      ensures Valid() && family == if uid == "" then old(family) else old(family)[uid := ds3]
    {
      if uid == "" { return; }
      family := family[uid := ds3];
    }

    /** Merge, never replace. */
    method CacheProtectionValues(uid: Uid, update: map<Code, real>)
      modifies `values, `seqNo
      ensures forall u :: Known(u) == if u == uid && uid != "" then old(Known(u)) + update else old(Known(u))
      ensures uid != "" ==> uid in seqNo && seqNo[uid] == (if uid in old(seqNo) then old(seqNo)[uid] else 0) + 1
    {
      if uid == "" { return; }
      var acc := if uid in values then values[uid] else map[];
      values := values[uid := acc + update];
      seqNo := seqNo[uid := (if uid in seqNo then seqNo[uid] else 0) + 1];
    }

    /** One page reply, `ds3` saying to which family its command belongs. Once the inverter's family
        is known a reply of the other one is dropped. Otherwise, whatever the buffer holds and
        however it is iterated, the known values change by exactly what this reply says on its own;
        nothing known disappears. */
    method HandleProtectionPage(uid: Uid, ds3: bool, f: Frame)
      requires Valid() && (uid in family || ds3 == isDs3(uid))
      modifies `pages, `values, `seqNo
      ensures Valid()
      ensures forall u :: u != uid ==> Known(u) == old(Known(u))
      ensures Known(uid) == if uid != "" && |f| >= 5 && ds3 == isDs3(uid)
                            then old(Known(uid)) + DecodeFrame(FamOf(ds3), f) else old(Known(uid))
    {
      hide UidOk, DecodeFrame, FamOf;
      if uid == "" || |f| < 5 { return; }
      if uid in family && family[uid] != ds3 { return; }
      var r := Buffer(uid, ds3, f);
      if r.Reading? { CacheProtectionValues(uid, r.values); }
      assert Known(uid) == old(Known(uid)) + DecodeFrame(FamOf(ds3), f);
      forall u | u != uid ensures UidOk(FamOf(isDs3(u)), Buffered(u), Known(u)) {
        assert old(UidOk(FamOf(isDs3(u)), Buffered(u), Known(u)));
      }
    }

    /** Buffers the reply and decodes all of the inverter's buffered pages. */
    method Buffer(uid: Uid, ds3: bool, f: Frame) returns (r: Reading)
      requires |f| >= 5 && UidOk(FamOf(ds3), Buffered(uid), Known(uid))
      modifies `pages
      ensures forall u :: u != uid ==> Buffered(u) == old(Buffered(u))
      ensures Known(uid) + (if r.Reading? then r.values else map[]) == Known(uid) + DecodeFrame(FamOf(ds3), f)
      ensures UidOk(FamOf(ds3), Buffered(uid), Known(uid) + DecodeFrame(FamOf(ds3), f))
    {
      hide UidOk, DecodeFrame, FamOf;
      var now;
      now, r := Redecode(ds3, if uid in pages then pages[uid] else map[], f, Known(uid));
      pages := pages[uid := now];
    }

    /** The inverter is removed and with it all that was kept about it. */
    method Remove(uid: Uid)
      requires Valid()
      modifies this
      ensures Valid() && family == old(family) - {uid}
      ensures forall u :: Known(u) == if u == uid then map[] else old(Known(u))
    {
      hide UidOk;
      pages, values, seqNo, family := pages - {uid}, values - {uid}, seqNo - {uid}, family - {uid};
      NothingKnown(FamOf(isDs3(uid)));
      forall u ensures UidOk(FamOf(isDs3(u)), Buffered(u), Known(u)) {
        assert old(UidOk(FamOf(isDs3(u)), Buffered(u), Known(u)));
      }
    }
  }

  lemma NothingKnown(fam: Family)
    ensures UidOk(fam, map[], map[])
  {
  }

  // ------------------------------------------------------------ whole runs over all inverters

  datatype Event = Telemetry(uid: Uid, ds3: bool) | Reply(uid: Uid, ds3: bool, frame: Frame) | Removed(uid: Uid)

  /** Telemetry has named the inverter's family since it was last removed. */
  predicate Told(es: seq<Event>, u: Uid) {
    es != [] &&
    match es[|es| - 1]
    case Telemetry(uid, _) => (uid == u && u != "") || Told(es[..|es| - 1], u)
    case Reply(_, _, _) => Told(es[..|es| - 1], u)
    case Removed(uid) => uid != u && Told(es[..|es| - 1], u)
  }

  /** Telemetry tells the truth, and a reply that arrives before any telemetry of its inverter is of
      the right family; later ones may be anything. */
  predicate Credible(before: seq<Event>, e: Event, isDs3: Uid -> bool) {
    match e
    case Telemetry(uid, ds3) => ds3 == isDs3(uid)
    case Reply(uid, ds3, _) => Told(before, uid) || ds3 == isDs3(uid)
    case Removed(_) => true
  }

  /** The inverter's own replies since it was last removed. */
  function Replies(es: seq<Event>, u: Uid, ds3: bool): seq<Frame> {
    if es == [] then []
    else
      var before := Replies(es[..|es| - 1], u, ds3);
      match es[|es| - 1]
      case Telemetry(_, _) => before
      case Reply(uid, d, f) => if uid == u && u != "" && d == ds3 && |f| >= 5 then before + [f] else before
      case Removed(uid) => if uid == u then [] else before
  }

  /** The cache holds, for every inverter, the fold of its own replies since it was last removed. */
  ghost predicate Reflects(cache: Cache, es: seq<Event>)
    reads cache
  {
    && cache.Valid()
    && (forall u :: u in cache.family <==> Told(es, u))
    && forall u :: cache.Known(u) == FoldOf(es, u, cache.isDs3(u))
  }

  /** Over any run of the whole fleet, with the replies of any inverters interleaved, removals and
      stray replies of the other family, the paged cache holds exactly the latest value per code of
      every inverter's own replies. */
  method ReceiveAll(cache: Cache, es: seq<Event>, ghost before: seq<Event>)
    requires Reflects(cache, before)
    requires forall k :: 0 <= k < |es| ==> Credible(before + es[..k], es[k], cache.isDs3)
    modifies cache
    ensures Reflects(cache, before + es)
  {
    hide Cache.Valid, Cache.Known, FoldOf, Told, Grown, StillTold;
    assert before + es[..0] == before;
    for i := 0 to |es|
      invariant Reflects(cache, before + es[..i])
    {
      ghost var so := before + es[..i];
      Receive(cache, es[i]);
      assert before + es[..i + 1] == so + [es[i]];
      forall u ensures Told(so + [es[i]], u) == StillTold(Told(so, u), es[i], u)
               ensures FoldOf(so + [es[i]], u, cache.isDs3(u)) ==
                         Grown(FoldOf(so, u, cache.isDs3(u)), es[i], u, cache.isDs3(u))
      {
        OneMoreEvent(so, es[i], u, cache.isDs3(u));
      }
    }
    assert es[..|es|] == es;
  }

  function FoldOf(es: seq<Event>, u: Uid, ds3: bool): map<Code, real> { Fold(FamOf(ds3), Replies(es, u, ds3)) }

  /** What one event changes in that meaning. */
  function Grown(known: map<Code, real>, e: Event, u: Uid, ds3: bool): map<Code, real> {
    if e.uid == u && e.Removed? then map[]
    else if e.uid == u && e.Reply? && u != "" && e.ds3 == ds3 && |e.frame| >= 5
    then known + DecodeFrame(FamOf(ds3), e.frame)
    else known
  }

  predicate StillTold(told: bool, e: Event, u: Uid) {
    (e.Telemetry? && e.uid == u && u != "") || (told && e != Removed(u))
  }

  lemma OneMoreEvent(before: seq<Event>, e: Event, u: Uid, ds3: bool)
    ensures Told(before + [e], u) == StillTold(Told(before, u), e, u)
    ensures FoldOf(before + [e], u, ds3) == Grown(FoldOf(before, u, ds3), e, u, ds3)
  {
    hide DecodeFrame;
    assert (before + [e])[..|before|] == before;
    var was, now := Replies(before, u, ds3), Replies(before + [e], u, ds3);
    if now != was && now != [] {
      assert now == was + [e.frame] && now[..|was|] == was;
    }
  }

  /** One event, by the cache's own methods. */
  method Receive(cache: Cache, e: Event)
    requires cache.Valid()
    requires e.Telemetry? ==> e.ds3 == cache.isDs3(e.uid)
    requires e.Reply? ==> e.uid in cache.family || e.ds3 == cache.isDs3(e.uid)
    modifies cache
    ensures cache.Valid()
    ensures forall u :: u in cache.family <==> StillTold(u in old(cache.family), e, u)
    ensures forall u :: cache.Known(u) == Grown(old(cache.Known(u)), e, u, cache.isDs3(u))
  {
    hide DecodeFrame, FamOf, UidOk;
    match e
    case Telemetry(uid, ds3) => cache.NoteFamily(uid, ds3);
    case Reply(uid, ds3, f) => cache.HandleProtectionPage(uid, ds3, f);
    case Removed(uid) => cache.Remove(uid);
  }

  /** Buffers one reply and decodes the buffer in whatever order it iterates. */
  method Redecode(ds3: bool, mine: map<byte, Frame>, f: Frame, ghost known: map<Code, real>)
    returns (now: map<byte, Frame>, r: Reading)
    requires |f| >= 5 && UidOk(FamOf(ds3), mine, known)
    ensures now == mine[PageKey(FamOf(ds3), f) := f]
    ensures known + (if r.Reading? then r.values else map[]) == known + DecodeFrame(FamOf(ds3), f)
    ensures UidOk(FamOf(ds3), now, known + DecodeFrame(FamOf(ds3), f))
  {
    hide DecodeFrame, DecodeFrames;
    var model := if ds3 then MODEL_DS3 else MODEL_QS1A;
    var fam := FamilyOf(model);
    now := mine[PageKey(fam, f) := f];
    var order := Enumerate(now.Keys);
    RedecodeIsIncremental(fam, mine, known, f, order);
    var frames := ListPages(order, now);
    r := DecodeProtectionReply(model, frames);
  }

  method ListPages(order: seq<byte>, pages: map<byte, Frame>) returns (frames: seq<Frame>)
    requires forall k :: k in order ==> k in pages
    ensures frames == FramesIn(order, pages)
  {
    frames := [];
    for i := 0 to |order|
      invariant frames == FramesIn(order[..i], pages)
    {
      assert order[..i + 1][..i] == order[..i];
      frames := frames + [pages[order[i]]];
    }
    assert order[..|order|] == order;
  }
}
