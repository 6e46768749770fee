/** The bulk handler's ordering of effects: delete tombstones, the log append, the
enqueues, and the replacement tombstones of accepted writes. */
module Bulk {
  import opened Counting

  datatype Action = Index | Create | Update | Delete

  /** A resolved item: its write stamp and, for a write, the streams it routes to. */
  datatype Plan = Plan(
    position: nat, action: Action, stream: nat, docId: seq<int>, explicitId: bool, routes: seq<nat>, stamp: int)

  datatype Info = Info(id: nat, documentMode: bool)

  /** One routed copy of a write, as appended to the log. */
  datatype Copy = Copy(stream: nat, docId: seq<int>, stamp: int, tombstone: bool)

  datatype Tombstone = Tombstone(streamId: nat, docId: seq<int>, before: int)

  datatype Verdict = Accepted | Saturated | Failed

  /** What reaches the outside, in order. Copies are named by their place in the append. */
  datatype Effect =
    | Upsert(tombstones: seq<Tombstone>)
    | Append(copies: seq<Copy>)
    | Enqueue(copy: nat, verdict: Verdict)
    | Confirm(copy: nat)

  /** How the metastore, the log and the queues answer. When the append does not land,
      `written` of its copies are in the log all the same, or all if there are fewer. */
  datatype World = World(deletesLand: bool, appendLands: bool, written: nat, verdict: nat -> Verdict)

  datatype Status = Done | BadRequest | TooMany | Internal

  datatype Response = Unavailable | AppendFailed | Items(statuses: map<nat, Status>)

  // ---- what each plan asks for ----

  predicate IsWrite(p: Plan) {
    p.action.Index? || p.action.Create?
  }

  predicate DocumentMode(infos: map<nat, Info>, stream: nat) {
    stream in infos && infos[stream].documentMode
  }

  predicate Replaces(infos: map<nat, Info>, p: Plan, stream: nat) {
    p.explicitId && DocumentMode(infos, stream)
  }

  function CopyOf(infos: map<nat, Info>, p: Plan, stream: nat): Copy {
    Copy(stream, p.docId, p.stamp, Replaces(infos, p, stream))
  }

  function CopiesOf(infos: map<nat, Info>, p: Plan): seq<Copy> {
    if IsWrite(p) then seq(|p.routes|, j requires 0 <= j < |p.routes| => CopyOf(infos, p, p.routes[j])) else []
  }

  /** The routed copies of the first `n` plans, plan by plan. */
  function Copies(infos: map<nat, Info>, plans: seq<Plan>, n: nat): seq<Copy>
    requires n <= |plans|
  {
    if n == 0 then [] else Copies(infos, plans, n - 1) + CopiesOf(infos, plans[n - 1])
  }

  function TombstoneOf(infos: map<nat, Info>, c: Copy): Tombstone
    requires c.stream in infos
  {
    Tombstone(infos[c.stream].id, c.docId, c.stamp)
  }

  predicate IsDelete(infos: map<nat, Info>, p: Plan) {
    p.action.Delete? && DocumentMode(infos, p.stream)
  }

  function DeleteTombstone(infos: map<nat, Info>, p: Plan): Tombstone
    requires IsDelete(infos, p)
  {
    Tombstone(infos[p.stream].id, p.docId, p.stamp)
  }

  lemma {:induction false} CopiesPrefix(infos: map<nat, Info>, plans: seq<Plan>, i: nat, n: nat)
    requires i <= n <= |plans|
    ensures Copies(infos, plans, i) <= Copies(infos, plans, n)
  {
    if i < n {
      CopiesPrefix(infos, plans, i, n - 1);
    }
  }

  lemma OwnCopies(infos: map<nat, Info>, plans: seq<Plan>, i: nat)
    requires i < |plans|
    ensures Copies(infos, plans, i) + CopiesOf(infos, plans[i]) <= Copies(infos, plans, |plans|)
  {
    CopiesPrefix(infos, plans, i + 1, |plans|);
  }

  /** Copy `j` of plan `i` sits where the enqueue loop looks for it. */
  lemma CopyPlace(infos: map<nat, Info>, plans: seq<Plan>, i: nat, j: nat)
    requires i < |plans| && j < |CopiesOf(infos, plans[i])|
    ensures var at := |Copies(infos, plans, i)| + j;
            at < |Copies(infos, plans, |plans|)| && Copies(infos, plans, |plans|)[at] == CopiesOf(infos, plans[i])[j]
  {
    OwnCopies(infos, plans, i);
    InPrefix(Copies(infos, plans, |plans|), Copies(infos, plans, i), CopiesOf(infos, plans[i]), j);
  }

  lemma InPrefix(all: seq<Copy>, before: seq<Copy>, own: seq<Copy>, j: nat)
    requires before + own <= all && j < |own|
    ensures |before| + j < |all| && all[|before| + j] == own[j]
  {
    assert (before + own)[|before| + j] == own[j];
  }

  /** Field by field: the log holds one copy per write and route, under the write's own
      id and stamp, flagged exactly if the client chose the id and the route is in
      document mode; and nothing else. */
  ghost predicate CopyFrom(infos: map<nat, Info>, p: Plan, j: nat, c: Copy) {
    && (p.action == Index || p.action == Create) && j < |p.routes|
    && c.stream == p.routes[j] && c.docId == p.docId && c.stamp == p.stamp
    && (c.tombstone <==> p.explicitId && p.routes[j] in infos && infos[p.routes[j]].documentMode)
  }

  lemma {:induction false} CopyFields(infos: map<nat, Info>, plans: seq<Plan>, n: nat)
    requires n <= |plans|
    ensures forall c :: c in Copies(infos, plans, n) ==>
              exists i, j :: 0 <= i < n && 0 <= j && CopyFrom(infos, plans[i], j, c)
  {
    if n > 0 {
      CopyFields(infos, plans, n - 1);
      var p := plans[n - 1];
      forall c | c in CopiesOf(infos, p)
        ensures exists j :: 0 <= j && CopyFrom(infos, p, j, c)
      {
        var j :| 0 <= j < |p.routes| && CopiesOf(infos, p)[j] == c;
        assert CopyFrom(infos, p, j, c);
      }
    }
  }

  lemma EveryRouteCopied(infos: map<nat, Info>, plans: seq<Plan>, i: nat, j: nat)
    requires i < |plans| && (plans[i].action == Index || plans[i].action == Create) && j < |plans[i].routes|
    ensures exists c :: c in Copies(infos, plans, |plans|) && CopyFrom(infos, plans[i], j, c)
  {
    CopyPlace(infos, plans, i, j);
    var at := |Copies(infos, plans, i)| + j;
    assert Copies(infos, plans, |plans|)[at] in Copies(infos, plans, |plans|);
    assert CopyFrom(infos, plans[i], j, Copies(infos, plans, |plans|)[at]);
  }

  // ---- deletes ----

  ghost predicate DeletesExact(infos: map<nat, Info>, plans: seq<Plan>, n: nat, ts: seq<Tombstone>)
    requires n <= |plans|
  {
    && (forall t :: t in ts ==>
          exists i :: 0 <= i < n && IsDelete(infos, plans[i]) && t == DeleteTombstone(infos, plans[i]))
    && (forall i :: 0 <= i < n && IsDelete(infos, plans[i]) ==> DeleteTombstone(infos, plans[i]) in ts)
  }

  /** Field by field: a delete's bound is its own stamp, on its own stream and id. */
  lemma DeleteFields(infos: map<nat, Info>, plans: seq<Plan>, ts: seq<Tombstone>)
    requires DeletesExact(infos, plans, |plans|, ts)
    ensures forall t :: t in ts ==>
              exists i :: && 0 <= i < |plans| && plans[i].action == Delete && plans[i].stream in infos
                          && infos[plans[i].stream].documentMode && t.streamId == infos[plans[i].stream].id
                          && t.docId == plans[i].docId && t.before == plans[i].stamp
    ensures forall i :: && 0 <= i < |plans| && plans[i].action == Delete && plans[i].stream in infos
                        && infos[plans[i].stream].documentMode ==>
              Tombstone(infos[plans[i].stream].id, plans[i].docId, plans[i].stamp) in ts
  {
    forall i | && 0 <= i < |plans| && plans[i].action == Delete && plans[i].stream in infos
               && infos[plans[i].stream].documentMode
      ensures Tombstone(infos[plans[i].stream].id, plans[i].docId, plans[i].stamp) in ts
    {
      assert IsDelete(infos, plans[i]);
    }
  }

  method CollectDeletes(infos: map<nat, Info>, plans: seq<Plan>) returns (ts: seq<Tombstone>)
    ensures DeletesExact(infos, plans, |plans|, ts)
  {
    ts := [];
    for i := 0 to |plans|
      invariant DeletesExact(infos, plans, i, ts)
    {
      if IsDelete(infos, plans[i]) {
        ts := ts + [DeleteTombstone(infos, plans[i])];
      }
    }
  }

  // ---- enqueueing ----

  predicate Outstanding(w: World, copies: seq<Copy>, n: nat) {
    n < |copies| && w.verdict(n).Accepted? && copies[n].tombstone
  }

  /** The tombstones of the accepted replacing copies among the first `n`. */
  function Replacements(infos: map<nat, Info>, w: World, copies: seq<Copy>, n: nat): seq<Tombstone> {
    if n == 0 then []
    else if Outstanding(w, copies, n - 1) && copies[n - 1].stream in infos then
      Replacements(infos, w, copies, n - 1) + [TombstoneOf(infos, copies[n - 1])]
    else Replacements(infos, w, copies, n - 1)
  }

  /** A tombstone is issued exactly for each accepted copy flagged as replacing. */
  lemma {:induction false} ReplacementsMean(infos: map<nat, Info>, w: World, copies: seq<Copy>, n: nat, t: Tombstone)
    ensures t in Replacements(infos, w, copies, n) <==>
            exists c :: && 0 <= c < n && Outstanding(w, copies, c) && copies[c].stream in infos
                        && t == TombstoneOf(infos, copies[c])
  {
    if n > 0 {
      ReplacementsMean(infos, w, copies, n - 1, t);
    }
  }

  /** Field by field: the bound is the accepted copy's own stamp, so it hides what the
      write replaces and not the write; and each such copy has its tombstone. */
  lemma ReplacementFields(infos: map<nat, Info>, w: World, copies: seq<Copy>, n: nat)
    ensures forall t :: t in Replacements(infos, w, copies, n) ==>
              exists c :: && 0 <= c < n && c < |copies| && w.verdict(c) == Accepted && copies[c].tombstone
                          && copies[c].stream in infos && t.streamId == infos[copies[c].stream].id
                          && t.docId == copies[c].docId && t.before == copies[c].stamp
    ensures forall c :: && 0 <= c < n && c < |copies| && w.verdict(c) == Accepted && copies[c].tombstone
                        && copies[c].stream in infos ==>
              exists t :: && t in Replacements(infos, w, copies, n) && t.streamId == infos[copies[c].stream].id
                          && t.docId == copies[c].docId && t.before == copies[c].stamp
  {
    forall t
      ensures t in Replacements(infos, w, copies, n) <==>
              exists c :: && 0 <= c < n && Outstanding(w, copies, c) && copies[c].stream in infos
                          && t == TombstoneOf(infos, copies[c])
    {
      ReplacementsMean(infos, w, copies, n, t);
    }
    forall c | && 0 <= c < n && c < |copies| && w.verdict(c) == Accepted && copies[c].tombstone
               && copies[c].stream in infos
      ensures exists t :: && t in Replacements(infos, w, copies, n) && t.streamId == infos[copies[c].stream].id
                          && t.docId == copies[c].docId && t.before == copies[c].stamp
    {
      assert Outstanding(w, copies, c);
      assert TombstoneOf(infos, copies[c]) in Replacements(infos, w, copies, n);
    }
  }

  /** The effects of enqueueing the first `n` copies: each enqueued once, in order, and
      confirmed right after exactly when it was turned away. */
  function EnqueueTrace(w: World, n: nat): seq<Effect> {
    if n == 0 then []
    else
      EnqueueTrace(w, n - 1) + [Enqueue(n - 1, w.verdict(n - 1))] +
      if w.verdict(n - 1).Accepted? then [] else [Confirm(n - 1)]
  }

  function Better(s: Status, v: Verdict): Status {
    if s == Done || v.Accepted? then Done else if s == TooMany || v.Saturated? then TooMany else Internal
  }

  /** The response to one write over the verdicts of its copies. */
  function WriteStatus(w: World, from: nat, n: nat): Status
    requires from <= n
    decreases n
  {
    if n == from then Internal else Better(WriteStatus(w, from, n - 1), w.verdict(n - 1))
  }

  /** Done if any copy was accepted, else too many if any queue was full. */
  lemma {:induction false} WriteStatusMeans(w: World, from: nat, n: nat)
    requires from <= n
    ensures WriteStatus(w, from, n) == Done <==> exists c :: from <= c < n && w.verdict(c).Accepted?
    ensures WriteStatus(w, from, n) == TooMany <==>
            && (forall c :: from <= c < n ==> !w.verdict(c).Accepted?)
            && exists c :: from <= c < n && w.verdict(c).Saturated?
    ensures WriteStatus(w, from, n) in {Done, TooMany, Internal}
    decreases n
  {
    if from < n {
      WriteStatusMeans(w, from, n - 1);
    }
  }

  /** One item's response, its copies starting at `at`. */
  function StatusOf(infos: map<nat, Info>, w: World, p: Plan, at: nat): Status {
    if IsWrite(p) then WriteStatus(w, at, at + |p.routes|)
    else if IsDelete(infos, p) then Done
    else if p.action.Delete? then BadRequest
    else Internal
  }

  /** Copy `c` is one of plan `i`'s own. */
  ghost predicate Own(infos: map<nat, Info>, plans: seq<Plan>, i: nat, c: nat)
    requires i < |plans|
  {
    |Copies(infos, plans, i)| <= c < |Copies(infos, plans, i + 1)|
  }

  /** What item `i` is told. A delete is done exactly if its stream is known and holds
      documents, else refused. A write is done if a copy of its own was accepted, else
      put off if a queue of its own was full, else failed. An update left over failed. */
  ghost predicate Tells(infos: map<nat, Info>, w: World, plans: seq<Plan>, i: nat, s: Status)
    requires i < |plans|
  {
    match plans[i].action
    case Delete =>
      s == if plans[i].stream in infos && infos[plans[i].stream].documentMode then Done else BadRequest
    case Update => s == Internal
    case _ =>
      if exists c :: Own(infos, plans, i, c) && w.verdict(c) == Accepted then s == Done
      else if exists c :: Own(infos, plans, i, c) && w.verdict(c) == Saturated then s == TooMany
      else s == Internal
  }

  lemma StatusMeans(infos: map<nat, Info>, w: World, plans: seq<Plan>, i: nat)
    requires i < |plans|
    ensures Tells(infos, w, plans, i, StatusOf(infos, w, plans[i], |Copies(infos, plans, i)|))
  {
    var from := |Copies(infos, plans, i)|;
    WriteStatusMeans(w, from, from + |plans[i].routes|);
    assert IsWrite(plans[i]) ==>
      forall c: nat :: Own(infos, plans, i, c) <==> from <= c < from + |plans[i].routes|;
  }

  /** Enqueue every copy of one write. */
  method EnqueueCopies(infos: map<nat, Info>, w: World, copies: seq<Copy>, p: Plan, from: nat,
                       trace0: seq<Effect>, ts0: seq<Tombstone>)
    returns (trace: seq<Effect>, ts: seq<Tombstone>, status: Status)
    requires IsWrite(p) && from + |p.routes| <= |copies|
    requires forall j :: 0 <= j < |p.routes| ==> copies[from + j] == CopyOf(infos, p, p.routes[j])
    requires trace0 == EnqueueTrace(w, from) && ts0 == Replacements(infos, w, copies, from)
    ensures trace == EnqueueTrace(w, from + |p.routes|) && ts == Replacements(infos, w, copies, from + |p.routes|)
    ensures status == WriteStatus(w, from, from + |p.routes|)
  {
    trace, ts := trace0, ts0;
    var accepted, saturated := 0, false;
    for j := 0 to |p.routes|
      invariant ts == Replacements(infos, w, copies, from + j) && trace == EnqueueTrace(w, from + j)
      invariant WriteStatus(w, from, from + j) == if accepted > 0 then Done else if saturated then TooMany else Internal
    {
      var n := from + j;
      assert copies[n] == CopyOf(infos, p, p.routes[j]);
      trace := trace + [Enqueue(n, w.verdict(n))];
      match w.verdict(n)
      case Accepted =>
        accepted := accepted + 1;
        if Replaces(infos, p, p.routes[j]) {
          ts := ts + [TombstoneOf(infos, copies[n])];
        }
      case Saturated =>
        trace := trace + [Confirm(n)];
        saturated := true;
      case Failed =>
        trace := trace + [Confirm(n)];
    }
    status := if accepted > 0 then Done else if saturated then TooMany else Internal;
  }

  ghost predicate DistinctPositions(plans: seq<Plan>) {
    forall i, j :: 0 <= i < j < |plans| ==> plans[i].position != plans[j].position
  }

  /** Each plan's position answered with its status, and nothing else answered. */
  ghost predicate Statuses(plans: seq<Plan>, all: seq<Status>, n: nat, statuses: map<nat, Status>)
    requires n <= |plans| == |all|
  {
    && (forall i :: 0 <= i < n ==> plans[i].position in statuses && statuses[plans[i].position] == all[i])
    && (forall k :: k in statuses ==> exists i :: 0 <= i < n && plans[i].position == k)
  }

  ghost function AllStatuses(infos: map<nat, Info>, w: World, plans: seq<Plan>): (all: seq<Status>)
    ensures |all| == |plans|
  {
    seq(|plans|, i requires 0 <= i < |plans| => StatusOf(infos, w, plans[i], |Copies(infos, plans, i)|))
  }

  lemma StatusesNext(plans: seq<Plan>, all: seq<Status>, n: nat, statuses: map<nat, Status>)
    requires n < |plans| == |all| && DistinctPositions(plans) && Statuses(plans, all, n, statuses)
    ensures Statuses(plans, all, n + 1, statuses[plans[n].position := all[n]])
  {
    var statuses' := statuses[plans[n].position := all[n]];
    forall i | 0 <= i < n + 1
      ensures plans[i].position in statuses' && statuses'[plans[i].position] == all[i]
    {
      assert i < n ==> plans[i].position != plans[n].position;
    }
  }

  /** The copies of `p` are found from `at` on. */
  ghost predicate PlacedAt(infos: map<nat, Info>, p: Plan, copies: seq<Copy>, at: nat) {
    && at + |CopiesOf(infos, p)| <= |copies|
    && forall j :: 0 <= j < |CopiesOf(infos, p)| ==> copies[at + j] == CopiesOf(infos, p)[j]
  }

  lemma PlanPlaced(infos: map<nat, Info>, plans: seq<Plan>, i: nat)
    requires i < |plans|
    ensures PlacedAt(infos, plans[i], Copies(infos, plans, |plans|), |Copies(infos, plans, i)|)
  {
    CopiesPrefix(infos, plans, i + 1, |plans|);
    forall j | 0 <= j < |CopiesOf(infos, plans[i])|
      ensures Copies(infos, plans, |plans|)[|Copies(infos, plans, i)| + j] == CopiesOf(infos, plans[i])[j]
    {
      CopyPlace(infos, plans, i, j);
    }
  }

  /** The first `n` copies have been enqueued, leaving these effects and tombstones. */
  ghost predicate Enqueued(infos: map<nat, Info>, w: World, copies: seq<Copy>, n: nat, trace: seq<Effect>,
                           ts: seq<Tombstone>) {
    n <= |copies| && trace == EnqueueTrace(w, n) && ts == Replacements(infos, w, copies, n)
  }

  /** Enqueue and answer one item. */
  method EnqueuePlan(infos: map<nat, Info>, w: World, p: Plan, copies: seq<Copy>, at: nat,
                     trace0: seq<Effect>, ts0: seq<Tombstone>)
    returns (trace: seq<Effect>, ts: seq<Tombstone>, status: Status)
    requires PlacedAt(infos, p, copies, at) && Enqueued(infos, w, copies, at, trace0, ts0)
    ensures Enqueued(infos, w, copies, at + |CopiesOf(infos, p)|, trace, ts)
    ensures status == StatusOf(infos, w, p, at)
  {
    if IsWrite(p) {
      forall j | 0 <= j < |p.routes|
        ensures copies[at + j] == CopyOf(infos, p, p.routes[j])
      {
        assert CopiesOf(infos, p)[j] == CopyOf(infos, p, p.routes[j]);
      }
      trace, ts, status := EnqueueCopies(infos, w, copies, p, at, trace0, ts0);
    } else {
      trace, ts := trace0, ts0;
      status := if IsDelete(infos, p) then Done else if p.action.Delete? then BadRequest else Internal;
    }
  }

  /** Plan `i`'s copies start at `starts[i]`, the next plan's right after, and its response is `all[i]`. */
  ghost predicate Laid(infos: map<nat, Info>, w: World, p: Plan, copies: seq<Copy>, start: nat, next: nat,
                       status: Status) {
    PlacedAt(infos, p, copies, start) && next == start + |CopiesOf(infos, p)| && status == StatusOf(infos, w, p, start)
  }

  ghost predicate LaidOut(infos: map<nat, Info>, w: World, plans: seq<Plan>, copies: seq<Copy>, starts: seq<nat>,
                          all: seq<Status>) {
    && |starts| == |plans| + 1 && |all| == |plans| && starts[0] == 0 && starts[|plans|] == |copies|
    && forall i :: 0 <= i < |plans| ==> Laid(infos, w, plans[i], copies, starts[i], starts[i + 1], all[i])
  }

  lemma LaidAt(infos: map<nat, Info>, w: World, plans: seq<Plan>, i: nat)
    requires i < |plans|
    ensures var at := |Copies(infos, plans, i)|;
            Laid(infos, w, plans[i], Copies(infos, plans, |plans|), at, |Copies(infos, plans, i + 1)|,
                 StatusOf(infos, w, plans[i], at))
  {
    PlanPlaced(infos, plans, i);
  }

  ghost function Starts(infos: map<nat, Info>, plans: seq<Plan>, n: nat): (starts: seq<nat>)
    requires n <= |plans|
    ensures |starts| == n + 1 && forall i :: 0 <= i <= n ==> starts[i] == |Copies(infos, plans, i)|
  {
    if n == 0 then [0] else Starts(infos, plans, n - 1) + [|Copies(infos, plans, n)|]
  }

  lemma LayOut(infos: map<nat, Info>, w: World, plans: seq<Plan>)
    ensures LaidOut(infos, w, plans, Copies(infos, plans, |plans|), Starts(infos, plans, |plans|),
                    AllStatuses(infos, w, plans))
  {
    var copies, starts := Copies(infos, plans, |plans|), Starts(infos, plans, |plans|);
    var all := AllStatuses(infos, w, plans);
    forall i | 0 <= i < |plans|
      ensures Laid(infos, w, plans[i], copies, starts[i], starts[i + 1], all[i])
    {
      LaidAt(infos, w, plans, i);
    }
  }

  /** Enqueue every write and answer every item. */
  method EnqueueAll(infos: map<nat, Info>, w: World, plans: seq<Plan>, copies: seq<Copy>,
                    ghost starts: seq<nat>, ghost all: seq<Status>)
    returns (trace: seq<Effect>, ts: seq<Tombstone>, statuses: map<nat, Status>)
    requires DistinctPositions(plans) && LaidOut(infos, w, plans, copies, starts, all)
    ensures Enqueued(infos, w, copies, |copies|, trace, ts) && Statuses(plans, all, |plans|, statuses)
  {
    trace, ts, statuses := [], [], map[];
    var at := 0;
    for i := 0 to |plans|
      invariant at == starts[i] && Enqueued(infos, w, copies, at, trace, ts) && Statuses(plans, all, i, statuses)
    {
      assert Laid(infos, w, plans[i], copies, starts[i], starts[i + 1], all[i]);
      var status;
      trace, ts, status := EnqueuePlan(infos, w, plans[i], copies, at, trace, ts);
      StatusesNext(plans, all, i, statuses);
      at := at + |CopiesOf(infos, plans[i])|;
      statuses := statuses[plans[i].position := status];
    }
  }

  function One(e: Effect, some: bool): seq<Effect> {
    if some then [e] else []
  }

  /** What a failed append leaves in the log: the copies before the one it failed at,
      never enqueued, and never confirmed. */
  function LeftBehind(w: World, copies: seq<Copy>): seq<Effect> {
    var n := if w.written < |copies| then w.written else |copies|;
    One(Append(copies[..n]), n != 0)
  }

  /** Nothing if no copy got in; else one append of the copies that did, all of them
      when none was left over. */
  lemma LeftBehindMeans(w: World, copies: seq<Copy>)
    ensures LeftBehind(w, copies) == [] <==> w.written == 0 || copies == []
    ensures 0 < w.written <= |copies| ==> LeftBehind(w, copies) == [Append(copies[..w.written])]
    ensures |copies| < w.written && copies != [] ==> LeftBehind(w, copies) == [Append(copies)]
  {
    assert copies[..|copies|] == copies;
  }

  /** The effects of a request that was answered, in order; everything it relies on landed. */
  ghost predicate Answered(infos: map<nat, Info>, w: World, copies: seq<Copy>, deletes: seq<Tombstone>,
                           replacements: seq<Tombstone>, trace: seq<Effect>) {
    && (deletes != [] ==> w.deletesLand) && (copies != [] ==> w.appendLands)
    && trace == One(Upsert(deletes), deletes != []) + One(Append(copies), copies != []) +
                EnqueueTrace(w, |copies|) + One(Upsert(replacements), replacements != [])
    && replacements == Replacements(infos, w, copies, |copies|)
  }

  /** The whole request. Deletes land before anything is appended; replacement
      tombstones go out last, for accepted copies only. */
  method HandleBulk(infos: map<nat, Info>, plans: seq<Plan>, w: World)
    returns (response: Response, trace: seq<Effect>, deletes: seq<Tombstone>, replacements: seq<Tombstone>)
    requires DistinctPositions(plans)
    ensures DeletesExact(infos, plans, |plans|, deletes)
    ensures response == Unavailable <==> deletes != [] && !w.deletesLand
    ensures response == Unavailable ==> trace == []
    ensures response == AppendFailed <==>
            !(deletes != [] && !w.deletesLand) && Copies(infos, plans, |plans|) != [] && !w.appendLands
    ensures response == AppendFailed ==>
              trace == One(Upsert(deletes), deletes != []) + LeftBehind(w, Copies(infos, plans, |plans|))
    ensures response.Items? ==> Statuses(plans, AllStatuses(infos, w, plans), |plans|, response.statuses)
    ensures response.Items? ==> forall i :: 0 <= i < |plans| ==>
              plans[i].position in response.statuses
              && Tells(infos, w, plans, i, response.statuses[plans[i].position])
    ensures response.Items? ==> Answered(infos, w, Copies(infos, plans, |plans|), deletes, replacements, trace)
  {
    deletes := CollectDeletes(infos, plans);
    replacements := [];
    if deletes != [] && !w.deletesLand {
      return Unavailable, [], deletes, replacements;
    }
    trace := One(Upsert(deletes), deletes != []);
    var copies := Copies(infos, plans, |plans|);
    if copies != [] && !w.appendLands {
      return AppendFailed, trace + LeftBehind(w, copies), deletes, replacements;
    }
    trace := trace + One(Append(copies), copies != []);
    var enqueued, statuses;
    LayOut(infos, w, plans);
    enqueued, replacements, statuses :=
      EnqueueAll(infos, w, plans, copies, Starts(infos, plans, |plans|), AllStatuses(infos, w, plans));
    trace := trace + enqueued + One(Upsert(replacements), replacements != []);
    forall i | 0 <= i < |plans|
      ensures Tells(infos, w, plans, i, statuses[plans[i].position])
    {
      StatusMeans(infos, w, plans, i);
    }
    return Items(statuses), trace, deletes, replacements;
  }

  // ---- what the order guarantees ----

  lemma {:induction false} EnqueuedInTrace(w: World, n: nat, c: nat)
    requires c < n
    ensures Enqueue(c, w.verdict(c)) in EnqueueTrace(w, n)
  {
    if c < n - 1 {
      EnqueuedInTrace(w, n - 1, c);
    }
  }

  lemma {:induction false} OnlyEnqueues(w: World, n: nat, e: Effect)
    requires e in EnqueueTrace(w, n)
    ensures e.Enqueue? || e.Confirm?
    ensures e.Confirm? ==> e.copy < n && !w.verdict(e.copy).Accepted?
    ensures e.Enqueue? ==> e.copy < n && e.verdict == w.verdict(e.copy)
  {
    if e in EnqueueTrace(w, n - 1) {
      OnlyEnqueues(w, n - 1, e);
    }
  }

  /** What one more copy adds to the count of an effect. */
  lemma CountNext(w: World, n: nat, x: Effect)
    ensures Count(EnqueueTrace(w, n + 1), x) ==
            Count(EnqueueTrace(w, n), x) + (if x == Enqueue(n, w.verdict(n)) then 1 else 0)
            + if x == Confirm(n) && !w.verdict(n).Accepted? then 1 else 0
  {
    var before, e := EnqueueTrace(w, n), Enqueue(n, w.verdict(n));
    var tail: seq<Effect> := if w.verdict(n).Accepted? then [] else [Confirm(n)];
    assert EnqueueTrace(w, n + 1) == before + [e] + tail;
    CountAppend(before, [e], x);
    CountAppend(before + [e], tail, x);
    CountOne(e, x);
    CountOne(Confirm(n), x);
  }

  /** Every copy is enqueued exactly once, and its verdict is the one it got. */
  lemma {:induction false} EnqueuedOnce(w: World, n: nat, c: nat, v: Verdict)
    ensures Count(EnqueueTrace(w, n), Enqueue(c, v)) == if c < n && v == w.verdict(c) then 1 else 0
  {
    if n > 0 {
      EnqueuedOnce(w, n - 1, c, v);
      CountNext(w, n - 1, Enqueue(c, v));
    }
  }

  /** Copies are enqueued in order, and a confirmation directly follows the enqueue of the
      copy that was turned away. */
  ghost predicate InOrder(w: World, trace: seq<Effect>) {
    && (forall i, j :: 0 <= i < j < |trace| && trace[i].Enqueue? && trace[j].Enqueue? ==> trace[i].copy < trace[j].copy)
    && (forall i :: 0 <= i < |trace| && trace[i].Confirm? ==>
          0 < i && trace[i - 1] == Enqueue(trace[i].copy, w.verdict(trace[i].copy)))
  }

  lemma {:induction false} EnqueuedInOrder(w: World, n: nat)
    ensures InOrder(w, EnqueueTrace(w, n))
  {
    if n > 0 {
      EnqueuedInOrder(w, n - 1);
      var before := EnqueueTrace(w, n - 1);
      forall i | 0 <= i < |before| && before[i].Enqueue?
        ensures before[i].copy < n - 1
      {
        OnlyEnqueues(w, n - 1, before[i]);
      }
    }
  }

  /** A copy turned away is confirmed exactly once, an accepted one not at all. */
  lemma {:induction false} ConfirmedIff(w: World, n: nat, c: nat)
    ensures Count(EnqueueTrace(w, n), Confirm(c)) == if c < n && !w.verdict(c).Accepted? then 1 else 0
  {
    if n > 0 {
      var m := n - 1;
      ConfirmedIff(w, m, c);
      CountNext(w, m, Confirm(c));
    }
  }

  /** A replacement's tombstone is issued only after the log append that holds its
      record, flagged, has landed, and after that copy was then accepted, and nothing
      but the deletes is upserted before: no rejected or lost write hides the version
      it would have replaced. */
  lemma ReplacementAfterDurable(infos: map<nat, Info>, w: World, copies: seq<Copy>, deletes: seq<Tombstone>,
                                replacements: seq<Tombstone>, trace: seq<Effect>, t: Tombstone)
    requires Answered(infos, w, copies, deletes, replacements, trace) && t in replacements
    ensures w.appendLands
    ensures var n := |trace| - 1;
            && trace[n] == Upsert(replacements)
            && (forall m :: 0 <= m < n && trace[..n][m].Upsert? ==> m == 0 && trace[..n][m] == Upsert(deletes))
            && exists m :: && 0 <= m < n && trace[m] == Append(copies)
                           && exists c :: && 0 <= c < |copies| && copies[c].tombstone && copies[c].stream in infos
                                          && t == TombstoneOf(infos, copies[c])
                                          && Enqueue(c, Accepted) in trace[m + 1..n]
  {
    ReplacementsMean(infos, w, copies, |copies|, t);
    var c :|
      0 <= c < |copies| && Outstanding(w, copies, c) && copies[c].stream in infos && t == TombstoneOf(infos, copies[c]);
    EnqueuedInTrace(w, |copies|, c);
    AnsweredParts(w, deletes, copies, EnqueueTrace(w, |copies|), replacements, trace);
    UpsertsFirst(w, deletes, copies);
  }

  /** Where the parts of an answered request's effects lie. */
  lemma AnsweredParts(w: World, deletes: seq<Tombstone>, copies: seq<Copy>, queued: seq<Effect>,
                      replacements: seq<Tombstone>, trace: seq<Effect>)
    requires replacements != [] && copies != []
    requires trace == One(Upsert(deletes), deletes != []) + One(Append(copies), copies != []) + queued +
                      One(Upsert(replacements), replacements != [])
    ensures var n, m := |trace| - 1, |One(Upsert(deletes), deletes != [])|;
            && m < n && trace[n] == Upsert(replacements) && trace[m] == Append(copies) && trace[m + 1..n] == queued
            && trace[..n] == One(Upsert(deletes), deletes != []) + [Append(copies)] + queued
  {
  }

  /** Up to the enqueues, only the deletes are upserted. */
  lemma UpsertsFirst(w: World, deletes: seq<Tombstone>, copies: seq<Copy>)
    ensures var before := One(Upsert(deletes), deletes != []) + [Append(copies)] + EnqueueTrace(w, |copies|);
            forall m :: 0 <= m < |before| && before[m].Upsert? ==> m == 0 && before[m] == Upsert(deletes)
  {
    var head, queued := One(Upsert(deletes), deletes != []) + [Append(copies)], EnqueueTrace(w, |copies|);
    var before: seq<Effect> := head + queued;
    forall m | |head| <= m < |before|
      ensures !before[m].Upsert?
    {
      OnlyEnqueues(w, |copies|, queued[m - |head|]);
    }
  }
}
