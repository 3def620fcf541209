/** The radio owner's view: the operating PAN and channel it keeps, where the module really
    is, and what one set-module command does to both. */
module Radio {
  const PARK: nat := 0xFFFF
  const RESTORE: nat := 0

  datatype Pair = Pair(pan: nat, ch: nat)

  predicate Sentinel(pan: nat) { pan == PARK || pan == RESTORE }

  /** How one command fared. Only `Acked` looks like success to the sender: a command may also
      never arrive, fail at the radio (having moved it or not), or succeed with its reply lost. */
  datatype Delivery = Undelivered | RadioError(moved: bool) | ReplyLost | Acked

  datatype Net = Net(op: Pair, at: Pair)

  function Target(n: Net, pan: nat, ch: nat): Pair {
    if pan == RESTORE then n.op else Pair(pan, ch)
  }

  /** 0xFFFF parks without adopting, 0 restores the operating pair, anything else is adopted. */
  function SetModulePan(n: Net, pan: nat, ch: nat, d: Delivery): Net {
    match d
    case Undelivered => n
    case RadioError(moved) => if moved then n.(at := Target(n, pan, ch)) else n
    case _ => Net(if Sentinel(pan) then n.op else Pair(pan, ch), Target(n, pan, ch))
  }

  type Serial = string
  datatype Found = Found(serial: Serial, shortAddr: nat, encrypted: bool)

  datatype Cmd =
    | SetModule(pan: nat, ch: nat)
    | ReportScan
    | Prime(serial: Serial, pan: nat, ch: nat)
    | Commit(pan: nat, ch: nat)
    | Hop(serial: Serial, pan: nat, ch: nat)
    | QueryShort(serial: Serial)
    | QueryModule
    | BindQuiet(shortAddr: nat)

  /** The last command that concerned the module itself. */
  function LastModule(log: seq<Cmd>): seq<Cmd> {
    if log == [] then []
    else if log[|log| - 1].SetModule? then [log[|log| - 1]]
    else LastModule(log[..|log| - 1])
  }

  lemma {:induction false} LastModuleOf(log: seq<Cmd>, tail: seq<Cmd>)
    requires forall i :: 0 <= i < |tail| ==> !tail[i].SetModule?
    ensures LastModule(log + tail) == LastModule(log)
  {
    if tail == [] {
      assert log + tail == log;
    } else {
      assert (log + tail)[..|log + tail| - 1] == log + tail[..|tail| - 1];
      LastModuleOf(log, tail[..|tail| - 1]);
    }
  }
}

/** First sighting order and latest announcement, as functions of everything announced. */
module Sightings {
  import opened Radio

  /** The serials in the order they were first announced. */
  function Order(all: seq<Found>): seq<Serial> {
    if all == [] then []
    else
      var order := Order(all[..|all| - 1]);
      var s := all[|all| - 1].serial;
      if s in order then order else order + [s]
  }

  function ById(all: seq<Found>): map<Serial, Found> {
    if all == [] then map[]
    else ById(all[..|all| - 1])[all[|all| - 1].serial := all[|all| - 1]]
  }

  lemma OneMoreSighting(all: seq<Found>, fi: Found)
    ensures Order(all + [fi]) == if fi.serial in ById(all) then Order(all) else Order(all) + [fi.serial]
    ensures ById(all + [fi]) == ById(all)[fi.serial := fi]
  {
    assert (all + [fi])[..|all|] == all;
    ByIdIsLatest(all, fi.serial);
  }

  function FirstIndex(all: seq<Found>, s: Serial): (r: nat)
    ensures r <= |all| && (r < |all| ==> all[r].serial == s)
    ensures forall k :: 0 <= k < r ==> all[k].serial != s
  {
    if all == [] then 0
    else
      var n := |all| - 1;
      var r := FirstIndex(all[..n], s);
      assert forall k :: 0 <= k < n ==> all[..n][k] == all[k];
      if r < n || all[n].serial == s then r else n + 1
  }

  function LastIndex(all: seq<Found>, s: Serial): (r: int)
    ensures -1 <= r < |all| && (r >= 0 ==> all[r].serial == s)
    ensures forall k :: r < k < |all| ==> all[k].serial != s
  {
    if all == [] then -1
    else if all[|all| - 1].serial == s then |all| - 1
    else
      assert forall k :: 0 <= k < |all| - 1 ==> all[..|all| - 1][k] == all[k];
      LastIndex(all[..|all| - 1], s)
  }

  lemma {:induction false} ByIdIsLatest(all: seq<Found>, s: Serial)
    ensures s in ById(all) <==> LastIndex(all, s) >= 0
    ensures s in ById(all) ==> ById(all)[s] == all[LastIndex(all, s)]
    ensures s in Order(all) <==> s in ById(all)
  {
    if all != [] { ByIdIsLatest(all[..|all| - 1], s); }
  }

  lemma {:induction false} OrderIsFirstSighting(all: seq<Found>)
    ensures forall a, b :: 0 <= a < b < |Order(all)| ==> FirstIndex(all, Order(all)[a]) < FirstIndex(all, Order(all)[b])
    ensures forall s :: s in Order(all) <==> FirstIndex(all, s) < |all|
  {
    if all != [] { OrderIsFirstSighting(all[..|all| - 1]); }
  }

  /** The list a sweep returns: `order` looked up in `byID`. */
  function Report(order: seq<Serial>, byId: map<Serial, Found>): seq<Found>
    requires forall s :: s in order ==> s in byId
  {
    if order == [] then []
    else Report(order[..|order| - 1], byId) + [byId[order[|order| - 1]]]
  }

  lemma {:induction false} ReportAt(order: seq<Serial>, byId: map<Serial, Found>)
    requires forall s :: s in order ==> s in byId
    ensures |Report(order, byId)| == |order|
    ensures forall a :: 0 <= a < |order| ==> order[a] in byId && Report(order, byId)[a] == byId[order[a]]
  {
    if order != [] { ReportAt(order[..|order| - 1], byId); }
  }

  lemma AllById(all: seq<Found>)
    ensures forall s :: s in Order(all) ==> s in ById(all)
  {
    forall s | s in Order(all) ensures s in ById(all) { ByIdIsLatest(all, s); }
  }

  /** What a sweep reports of everything announced during it. */
  function Result(all: seq<Found>): seq<Found> {
    AllById(all);
    Report(Order(all), ById(all))
  }

  lemma ReportedAt(all: seq<Found>, a: nat)
    requires a < |Order(all)|
    ensures |Result(all)| == |Order(all)| && Result(all)[a].serial == Order(all)[a]
    ensures LastIndex(all, Order(all)[a]) >= 0 && Result(all)[a] == all[LastIndex(all, Order(all)[a])]
  {
    hide Order, ById, LastIndex, Report;
    AllById(all);
    ReportAt(Order(all), ById(all));
    assert Order(all)[a] in Order(all);
    ByIdIsLatest(all, Order(all)[a]);
  }

  ghost predicate Reported(r: seq<Found>, s: Serial) {
    exists a :: 0 <= a < |r| && r[a].serial == s
  }

  /** A serial announced by sighting `k` is in the report. */
  lemma EveryoneReported(all: seq<Found>, k: nat)
    requires k < |all|
    ensures Reported(Result(all), all[k].serial)
  {
    hide Order, FirstIndex, Result;
    OrderIsFirstSighting(all);
    assert FirstIndex(all, all[k].serial) <= k;
    var a :| 0 <= a < |Order(all)| && Order(all)[a] == all[k].serial;
    ReportedAt(all, a);
  }

  /** The scan report: exactly the announced serials, none twice, in the order of their first
      sightings, each with its latest announcement. */
  lemma ReportMeaning(all: seq<Found>)
    ensures var r := Result(all);
            && (forall a :: 0 <= a < |r| ==>
                  LastIndex(all, r[a].serial) >= 0 && r[a] == all[LastIndex(all, r[a].serial)])
            && (forall k :: 0 <= k < |all| ==> Reported(r, all[k].serial))
            && (forall a, b :: 0 <= a < b < |r| ==> FirstIndex(all, r[a].serial) < FirstIndex(all, r[b].serial))
  {
    hide Order, FirstIndex, LastIndex, Result;
    OrderIsFirstSighting(all);
    forall a | 0 <= a < |Order(all)|
      ensures |Result(all)| == |Order(all)| && Result(all)[a].serial == Order(all)[a]
      ensures LastIndex(all, Order(all)[a]) >= 0 && Result(all)[a] == all[LastIndex(all, Order(all)[a])]
    {
      ReportedAt(all, a);
    }
    forall k | 0 <= k < |all| ensures Reported(Result(all), all[k].serial) {
      EveryoneReported(all, k);
    }
    SameLength(all);
  }

  lemma SameLength(all: seq<Found>)
    ensures |Result(all)| == |Order(all)|
  {
    hide Order, ById;
    AllById(all);
    ReportAt(Order(all), ById(all));
  }
}
