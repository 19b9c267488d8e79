/**
 The abstract behaviour of a queue made of priority lanes: lane 0 is served
 first, each lane is first-in first-out and bounded. Items carry the lane they
 were sent on, so that whole histories can be compared.
 */
module LaneQueues {
  import opened Wrappers

  type Lanes<T> = seq<seq<T>>

  /** An item and the lane it was sent on. */
  datatype Sent<T> = Sent(lane: nat, item: T)

  /** The first lane that holds something, or the lane count if none does. */
  function FirstNonEmpty<T>(lanes: Lanes<T>): (l: nat)
    ensures l <= |lanes|
    ensures l < |lanes| ==> lanes[l] != []
    ensures forall k :: 0 <= k < l ==> lanes[k] == []
  {
    if lanes == [] then 0
    else if lanes[0] != [] then 0
    else 1 + FirstNonEmpty(lanes[1..])
  }

  function Push<T>(lanes: Lanes<T>, l: nat, x: T): Lanes<T>
    requires l < |lanes|
  {
    lanes[l := lanes[l] + [x]]
  }

  function Pop<T>(lanes: Lanes<T>): (Option<T>, Lanes<T>) {
    var l := FirstNonEmpty(lanes);
    if l < |lanes| then (Some(lanes[l][0]), lanes[l := lanes[l][1..]]) else (None, lanes)
  }

  predicate AllEmpty<T>(lanes: Lanes<T>) {
    forall l :: 0 <= l < |lanes| ==> lanes[l] == []
  }

  /** Everything queued, highest lane first. */
  function Flatten<T>(lanes: Lanes<T>): seq<T> {
    if lanes == [] then [] else lanes[0] + Flatten(lanes[1..])
  }

  /** The items of a history that went through lane `l`, in order. */
  function OnLane<T>(s: seq<Sent<T>>, l: nat): seq<T> {
    if s == [] then []
    else if s[0].lane == l then [s[0].item] + OnLane(s[1..], l)
    else OnLane(s[1..], l)
  }

  function Items<T>(s: seq<Sent<T>>): seq<T> {
    seq(|s|, i requires 0 <= i < |s| => s[i].item)
  }

  lemma {:induction false} OnLaneAppend<T>(s: seq<Sent<T>>, t: seq<Sent<T>>, l: nat)
    ensures OnLane(s + t, l) == OnLane(s, l) + OnLane(t, l)
  {
    if s == [] {
      assert s + t == t;
    } else {
      OnLaneAppend(s[1..], t, l);
      assert (s + t)[0] == s[0] && (s + t)[1..] == s[1..] + t;
    }
  }

  // ----- Whole runs -----------------------------------------------------

  datatype Op<T> = TrySend(lane: nat, item: T) | TryRecv

  /**
   The lanes, and what was accepted, refused and delivered so far, in order; `waiting` is the
   queue seen as one list in order of arrival.
   */
  datatype History<T> = History(
    lanes: Lanes<T>,
    accepted: seq<Sent<T>>, refused: seq<Sent<T>>, delivered: seq<Sent<T>>,
    waiting: seq<Sent<T>>)

  /** `s` without its first item on lane `l`. */
  function RemoveFirst<T>(s: seq<Sent<T>>, l: nat): seq<Sent<T>> {
    if s == [] then []
    else if s[0].lane == l then s[1..]
    else [s[0]] + RemoveFirst(s[1..], l)
  }

  function Perform<T>(h: History<T>, capacity: nat, op: Op<T>): History<T> {
    match op
    case TrySend(l, x) =>
      if l < |h.lanes| && |h.lanes[l]| < capacity
      then h.(lanes := Push(h.lanes, l, x),
              accepted := h.accepted + [Sent(l, x)],
              waiting := h.waiting + [Sent(l, x)])
      else h.(refused := h.refused + [Sent(l, x)])
    case TryRecv =>
      var l := FirstNonEmpty(h.lanes);
      if l < |h.lanes|
      then h.(lanes := Pop(h.lanes).1,
              delivered := h.delivered + [Sent(l, h.lanes[l][0])],
              waiting := RemoveFirst(h.waiting, l))
      else h
  }

  function PerformAll<T>(h: History<T>, capacity: nat, ops: seq<Op<T>>): History<T>
    decreases |ops|
  {
    if ops == [] then h
    else Perform(PerformAll(h, capacity, ops[..|ops| - 1]), capacity, ops[|ops| - 1])
  }

  function Fresh<T>(k: nat): History<T> {
    History(seq(k, i => []), [], [], [], [])
  }

  /** Lane by lane, what was accepted is what was delivered followed by what is still queued. */
  ghost predicate Conserves<T>(h: History<T>) {
    forall l :: 0 <= l < |h.lanes| ==> OnLane(h.accepted, l) == OnLane(h.delivered, l) + h.lanes[l]
  }

  ghost predicate LanesBelow<T>(s: seq<Sent<T>>, k: nat) {
    forall i :: 0 <= i < |s| ==> s[i].lane < k
  }

  /** The lanes are the waiting list split by lane. */
  ghost predicate Splits<T>(h: History<T>) {
    && LanesBelow(h.waiting, |h.lanes|)
    && forall l :: 0 <= l < |h.lanes| ==> h.lanes[l] == OnLane(h.waiting, l)
  }

  lemma OnLaneSnoc<T>(s: seq<Sent<T>>, x: Sent<T>, l: nat)
    ensures OnLane(s + [x], l) == if x.lane == l then OnLane(s, l) + [x.item] else OnLane(s, l)
  {
    OnLaneAppend(s, [x], l);
  }

  lemma ConservesStep<T>(h: History<T>, capacity: nat, op: Op<T>)
    requires Conserves(h)
    ensures Conserves(Perform(h, capacity, op))
  {
    var h' := Perform(h, capacity, op);
    forall l | 0 <= l < |h'.lanes| ensures OnLane(h'.accepted, l) == OnLane(h'.delivered, l) + h'.lanes[l] {
      if op.TrySend? {
        OnLaneSnoc(h.accepted, Sent(op.lane, op.item), l);
      } else {
        var f := FirstNonEmpty(h.lanes);
        if f < |h.lanes| {
          OnLaneSnoc(h.delivered, Sent(f, h.lanes[f][0]), l);
          assert f == l ==> h.lanes[l] == [h.lanes[l][0]] + h'.lanes[l];
        }
      }
    }
  }

  lemma {:induction false} RemoveFirstOnLane<T>(s: seq<Sent<T>>, f: nat, l: nat)
    requires OnLane(s, f) != []
    ensures OnLane(RemoveFirst(s, f), l) == if l == f then OnLane(s, l)[1..] else OnLane(s, l)
  {
    if s[0].lane != f {
      RemoveFirstOnLane(s[1..], f, l);
      var r := RemoveFirst(s[1..], f);
      assert ([s[0]] + r)[0] == s[0] && ([s[0]] + r)[1..] == r;
    }
  }

  lemma {:induction false} RemoveFirstBelow<T>(s: seq<Sent<T>>, f: nat, k: nat)
    requires LanesBelow(s, k)
    ensures LanesBelow(RemoveFirst(s, f), k)
  {
    if s != [] && s[0].lane != f { RemoveFirstBelow(s[1..], f, k); }
  }

  lemma SplitsStep<T>(h: History<T>, capacity: nat, op: Op<T>)
    requires Splits(h)
    ensures Splits(Perform(h, capacity, op))
  {
    var h' := Perform(h, capacity, op);
    var f := FirstNonEmpty(h.lanes);
    RemoveFirstBelow(h.waiting, f, |h.lanes|);
    forall l | 0 <= l < |h'.lanes| ensures h'.lanes[l] == OnLane(h'.waiting, l) {
      if op.TrySend? {
        OnLaneSnoc(h.waiting, Sent(op.lane, op.item), l);
      } else if f < |h.lanes| {
        RemoveFirstOnLane(h.waiting, f, l);
      }
    }
  }

  /**
   Over every run of sends and receives from an empty queue: nothing is lost, duplicated or
   reordered within a lane, and no lane exceeds its capacity.
   */
  lemma {:induction false} FifoPerLane<T>(k: nat, capacity: nat, ops: seq<Op<T>>)
    ensures var h := PerformAll(Fresh(k), capacity, ops);
            && |h.lanes| == k && Conserves(h) && Splits(h)
            && forall l :: 0 <= l < k ==> |h.lanes[l]| <= capacity
    decreases |ops|
  {
    if ops != [] {
      FifoPerLane(k, capacity, ops[..|ops| - 1]);
      var h := PerformAll(Fresh(k), capacity, ops[..|ops| - 1]);
      ConservesStep(h, capacity, ops[|ops| - 1]);
      SplitsStep(h, capacity, ops[|ops| - 1]);
    }
  }

  /**
   After any run, the next send is refused exactly when of all its lane ever accepted `capacity`
   items have not been delivered yet; a refusal leaves the queue as it was, and anything else is
   delivered after what its lane accepted before.
   */
  lemma RefusedExactlyWhenFull<T>(k: nat, capacity: nat, ops: seq<Op<T>>, l: nat, x: T)
    requires l < k
    ensures var h := PerformAll(Fresh(k), capacity, ops);
            var h' := PerformAll(Fresh(k), capacity, ops + [TrySend(l, x)]);
            && (h'.refused != h.refused <==> |OnLane(h.accepted, l)| == |OnLane(h.delivered, l)| + capacity)
            && (h'.refused != h.refused ==> h' == h.(refused := h.refused + [Sent(l, x)]))
            && (h'.refused == h.refused ==>
                  OnLane(h.accepted, l) + [x] == OnLane(h'.delivered, l) + h'.lanes[l])
  {
    FifoPerLane(k, capacity, ops);
    FifoPerLane(k, capacity, ops + [TrySend(l, x)]);
    var h := PerformAll(Fresh(k), capacity, ops);
    assert (ops + [TrySend(l, x)])[..|ops|] == ops;
    assert |h.refused + [Sent(l, x)]| > |h.refused|;
    OnLaneSnoc(h.accepted, Sent(l, x), l);
  }

  // ----- Draining -------------------------------------------------------

  /** `x` in front of the first item whose lane is not better than its own. */
  function InsertByLane<T>(x: Sent<T>, s: seq<Sent<T>>): seq<Sent<T>> {
    if s == [] || x.lane <= s[0].lane then [x] + s else [s[0]] + InsertByLane(x, s[1..])
  }

  /** The stable sort of a history by lane. */
  function StableSort<T>(s: seq<Sent<T>>): seq<Sent<T>> {
    if s == [] then [] else InsertByLane(s[0], StableSort(s[1..]))
  }

  ghost predicate SortedByLane<T>(s: seq<Sent<T>>) {
    forall i, j :: 0 <= i < j < |s| ==> s[i].lane <= s[j].lane
  }

  lemma OnLaneCons<T>(x: Sent<T>, s: seq<Sent<T>>, l: nat)
    ensures OnLane([x] + s, l) == if x.lane == l then [x.item] + OnLane(s, l) else OnLane(s, l)
  {
    assert ([x] + s)[0] == x && ([x] + s)[1..] == s;
  }

  lemma {:induction false} InsertKeepsLane<T>(x: Sent<T>, s: seq<Sent<T>>, l: nat)
    ensures OnLane(InsertByLane(x, s), l) == OnLane([x] + s, l)
  {
    if s != [] && x.lane > s[0].lane {
      InsertKeepsLane(x, s[1..], l);
      OnLaneCons(s[0], InsertByLane(x, s[1..]), l);
      OnLaneCons(x, s[1..], l);
      OnLaneCons(x, s, l);
    }
  }

  lemma {:induction false} InsertAbove<T>(x: Sent<T>, s: seq<Sent<T>>, low: nat)
    requires low <= x.lane && forall i :: 0 <= i < |s| ==> low <= s[i].lane
    ensures forall i :: 0 <= i < |InsertByLane(x, s)| ==> low <= InsertByLane(x, s)[i].lane
  {
    if s != [] && x.lane > s[0].lane { InsertAbove(x, s[1..], low); }
  }

  lemma {:induction false} InsertSorts<T>(x: Sent<T>, s: seq<Sent<T>>)
    requires SortedByLane(s)
    ensures SortedByLane(InsertByLane(x, s))
  {
    if s != [] && x.lane > s[0].lane {
      InsertSorts(x, s[1..]);
      InsertAbove(x, s[1..], s[0].lane);
    }
  }

  lemma {:induction false} InsertKeeps<T>(x: Sent<T>, s: seq<Sent<T>>)
    ensures multiset(InsertByLane(x, s)) == multiset(s) + multiset{x}
  {
    if s != [] && x.lane > s[0].lane {
      InsertKeeps(x, s[1..]);
      assert s == [s[0]] + s[1..];
    }
  }

  lemma {:induction false} StableSortSorts<T>(s: seq<Sent<T>>)
    ensures SortedByLane(StableSort(s))
    ensures multiset(StableSort(s)) == multiset(s)
  {
    if s != [] {
      StableSortSorts(s[1..]);
      InsertSorts(s[0], StableSort(s[1..]));
      InsertKeeps(s[0], StableSort(s[1..]));
      assert s == [s[0]] + s[1..];
    }
  }

  /** Sorting by lane keeps the order within every lane. */
  lemma {:induction false} StableSortIsStable<T>(s: seq<Sent<T>>, l: nat)
    ensures OnLane(StableSort(s), l) == OnLane(s, l)
  {
    if s != [] {
      StableSortIsStable(s[1..], l);
      InsertKeepsLane(s[0], StableSort(s[1..]), l);
      OnLaneCons(s[0], StableSort(s[1..]), l);
    }
  }

  /** Lanes `from`, `from + 1`, ... of a history, one after the other. */
  function LanesFrom<T>(s: seq<Sent<T>>, from: nat, k: nat): seq<T>
    requires from <= k
    decreases k - from
  {
    if from == k then [] else OnLane(s, from) + LanesFrom(s, from + 1, k)
  }

  lemma {:induction false} LanesFromSkips<T>(s: seq<Sent<T>>, from: nat, k: nat)
    requires s != [] && from <= k && s[0].lane < from
    ensures LanesFrom(s, from, k) == LanesFrom(s[1..], from, k)
    decreases k - from
  {
    if from < k { LanesFromSkips(s, from + 1, k); }
  }

  lemma {:induction false} LanesFromStable<T>(s: seq<Sent<T>>, from: nat, k: nat)
    requires from <= k
    ensures LanesFrom(StableSort(s), from, k) == LanesFrom(s, from, k)
    decreases k - from
  {
    if from < k {
      StableSortIsStable(s, from);
      LanesFromStable(s, from + 1, k);
    }
  }

  lemma {:induction false} NoneBelow<T>(s: seq<Sent<T>>, l: nat)
    requires forall i :: 0 <= i < |s| ==> s[i].lane > l
    ensures OnLane(s, l) == []
  {
    if s != [] { NoneBelow(s[1..], l); }
  }

  lemma {:induction false} SortedIsLanes<T>(s: seq<Sent<T>>, from: nat, k: nat)
    requires SortedByLane(s) && from <= k && forall i :: 0 <= i < |s| ==> from <= s[i].lane < k
    ensures Items(s) == LanesFrom(s, from, k)
    decreases k - from, |s|
  {
    if from == k {
      assert s == [];
    } else if s != [] && s[0].lane == from {
      SortedIsLanes(s[1..], from, k);
      LanesFromSkips(s, from + 1, k);
      assert Items(s) == [s[0].item] + Items(s[1..]);
    } else {
      NoneBelow(s, from);
      SortedIsLanes(s, from + 1, k);
    }
  }

  lemma {:induction false} FlattenLanes<T>(lanes: Lanes<T>, s: seq<Sent<T>>, from: nat)
    requires forall i :: 0 <= i < |lanes| ==> lanes[i] == OnLane(s, from + i)
    ensures Flatten(lanes) == LanesFrom(s, from, from + |lanes|)
  {
    if lanes != [] {
      assert lanes[0] == OnLane(s, from + 0);
      forall i | 0 <= i < |lanes[1..]| ensures lanes[1..][i] == OnLane(s, from + 1 + i) {
        assert lanes[1..][i] == lanes[i + 1];
      }
      FlattenLanes(lanes[1..], s, from + 1);
    }
  }

  lemma StableSortBelow<T>(s: seq<Sent<T>>, k: nat)
    requires LanesBelow(s, k)
    ensures LanesBelow(StableSort(s), k)
  {
    StableSortSorts(s);
    var t := StableSort(s);
    forall i | 0 <= i < |t| ensures t[i].lane < k {
      assert t[i] in multiset(t);
      assert t[i] in multiset(s);
    }
  }

  /**
   When the lanes hold the items `waiting`, in order of arrival, draining them gives the stable
   sort of `waiting` by lane: higher lanes first, arrival order within a lane.
   */
  lemma DrainIsStableSort<T>(lanes: Lanes<T>, waiting: seq<Sent<T>>)
    requires forall l :: 0 <= l < |lanes| ==> lanes[l] == OnLane(waiting, l)
    requires LanesBelow(waiting, |lanes|)
    ensures Flatten(lanes) == Items(StableSort(waiting))
  {
    FlattenLanes(lanes, waiting, 0);
    LanesFromStable(waiting, 0, |lanes|);
    StableSortBelow(waiting, |lanes|);
    StableSortSorts(waiting);
    SortedIsLanes(StableSort(waiting), 0, |lanes|);
  }

  /** After any run, `drain` hands out the stable sort by lane of what has arrived and not left. */
  lemma DrainAfterRun<T>(k: nat, capacity: nat, ops: seq<Op<T>>)
    ensures var h := PerformAll(Fresh(k), capacity, ops);
            Flatten(h.lanes) == Items(StableSort(h.waiting))
  {
    FifoPerLane(k, capacity, ops);
    var h := PerformAll(Fresh(k), capacity, ops);
    DrainIsStableSort(h.lanes, h.waiting);
  }

  lemma {:induction false} FlattenEmpty<T>(lanes: Lanes<T>)
    ensures Flatten(lanes) == [] <==> AllEmpty(lanes)
  {
    if lanes != [] {
      FlattenEmpty(lanes[1..]);
      if AllEmpty(lanes[1..]) && lanes[0] == [] {
        forall k | 0 <= k < |lanes| ensures lanes[k] == [] {
          if k > 0 { assert lanes[1..][k - 1] == []; }
        }
      }
    }
  }

  lemma {:induction false} FlattenPop<T>(lanes: Lanes<T>)
    requires FirstNonEmpty(lanes) < |lanes|
    ensures Flatten(lanes) == [Pop(lanes).0.value] + Flatten(Pop(lanes).1)
  {
    var rest := Pop(lanes).1;
    if lanes[0] != [] {
      assert rest[1..] == lanes[1..];
      assert lanes[0] == [lanes[0][0]] + rest[0];
    } else {
      FlattenPop(lanes[1..]);
      assert rest[1..] == Pop(lanes[1..]).1;
    }
  }

  /** Receiving until nothing is left delivers exactly what draining would hand out. */
  lemma PopIsDrain<T>(lanes: Lanes<T>)
    ensures var (x, rest) := Pop(lanes);
            if AllEmpty(lanes) then x == None && Flatten(lanes) == []
            else x.Some? && Flatten(lanes) == [x.value] + Flatten(rest)
  {
    FlattenEmpty(lanes);
    if !AllEmpty(lanes) { FlattenPop(lanes); }
  }

  // ----- Polling ----------------------------------------------------------

  /**
   One poll of the awaiting receive, which asks the lanes in order and takes the first answer. An
   empty lane answers only once it is closed, and then with nothing.
   */
  function Polled<T>(lanes: Lanes<T>, live: bool): (Poll<Option<T>>, Lanes<T>) {
    var l := FirstNonEmpty(lanes);
    if !live && l > 0 then (Ready(None), lanes)
    else if l < |lanes| then (Ready(Pop(lanes).0), Pop(lanes).1)
    else (Pending, lanes)
  }

  /** While senders live, a poll takes what is due next, and waits exactly when everything is empty. */
  lemma PollIsPop<T>(lanes: Lanes<T>)
    ensures Polled(lanes, true) == if AllEmpty(lanes) then (Pending, lanes) else (Ready(Pop(lanes).0), Pop(lanes).1)
  {
    PopIsDrain(lanes);
  }

  /** What a receiver gets from a closed queue until it is told that nothing is left, and what is left. */
  function ReceiveToEnd<T>(lanes: Lanes<T>): (seq<T>, Lanes<T>)
    requires lanes != []
    decreases |lanes[0]|
  {
    var (answer, rest) := Polled(lanes, false);
    if answer.Ready? && answer.value.Some? then
      var (more, left) := ReceiveToEnd(rest);
      ([answer.value.value] + more, left)
    else ([], lanes)
  }

  /**
   A closed queue delivers its first lane and nothing else: the receiver gets all there is exactly
   when nothing waits in a lower lane.
   */
  lemma {:induction false} ClosedDeliversFirstLane<T>(lanes: Lanes<T>)
    requires lanes != []
    ensures ReceiveToEnd(lanes) == (lanes[0], lanes[0 := []])
    ensures ReceiveToEnd(lanes).0 == Flatten(lanes) <==> AllEmpty(lanes[1..])
    decreases |lanes[0]|
  {
    FlattenEmpty(lanes[1..]);
    assert Flatten(lanes) == lanes[0] + Flatten(lanes[1..]);
    if lanes[0] != [] {
      var rest := lanes[0 := lanes[0][1..]];
      ClosedDeliversFirstLane(rest);
      assert rest[0 := []] == lanes[0 := []] && lanes[0] == [lanes[0][0]] + rest[0];
    } else {
      assert lanes[0 := []] == lanes;
    }
  }

  /** Number of items across all lanes. */
  function Depth<T>(lanes: Lanes<T>): nat { |Flatten(lanes)| }

  lemma {:induction false} DepthPush<T>(lanes: Lanes<T>, l: nat, x: T)
    requires l < |lanes|
    ensures Depth(Push(lanes, l, x)) == Depth(lanes) + 1
  {
    var more := Push(lanes, l, x);
    if l == 0 {
      assert more[1..] == lanes[1..];
    } else {
      assert more[1..] == Push(lanes[1..], l - 1, x);
      DepthPush(lanes[1..], l - 1, x);
    }
  }

  lemma DepthPop<T>(lanes: Lanes<T>)
    ensures Pop(lanes).0.Some? <==> Depth(lanes) > 0
    ensures Pop(lanes).0.Some? ==> Depth(Pop(lanes).1) == Depth(lanes) - 1
  {
    PopIsDrain(lanes);
    FlattenEmpty(lanes);
  }
}
