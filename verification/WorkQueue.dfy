/**
 * The shared counter that workers pull indices from, in both forms the harness uses: the
 * scenario loop takes an index and then looks whether it is past the end, `pooled` looks
 * first. Nothing is awaited between the look and the increment, so each take is one step;
 * the steps of different workers interleave freely.
 */
module WorkQueue {
  import opened Text

  datatype Slot = Idle | Busy(item: nat) | Done
  datatype Discipline = TakeThenCheck | CheckThenTake
  datatype Queue = Queue(next: nat, slots: seq<Slot>, finished: seq<nat>)
  datatype Action = Take(w: nat) | Finish(w: nat)

  function Start(width: nat): Queue {
    Queue(0, seq(width, _ => Idle), [])
  }

  /** One step of worker w over n items; None when w is not where the step starts. */
  function Apply(n: nat, d: Discipline, q: Queue, a: Action): Option<Queue> {
    if a.w >= |q.slots| then None
    else
      match a
      case Take(w) =>
        if !q.slots[w].Idle? then None
        else if q.next < n then Some(q.(next := q.next + 1, slots := q.slots[w := Busy(q.next)]))
        else Some(q.(next := if d == TakeThenCheck then q.next + 1 else q.next, slots := q.slots[w := Done]))
      case Finish(w) =>
        if !q.slots[w].Busy? then None
        else Some(q.(slots := q.slots[w := Idle], finished := q.finished + [q.slots[w].item]))
  }

  function Run(n: nat, d: Discipline, q: Queue, acts: seq<Action>): Option<Queue>
    decreases |acts|
  {
    if acts == [] then Some(q)
    else
      match Apply(n, d, q, acts[0])
      case None => None
      case Some(q') => Run(n, d, q', acts[1..])
  }

  predicate AllDone(q: Queue) {
    forall w | 0 <= w < |q.slots| :: q.slots[w].Done?
  }

  // ---------- What is held, and what has been handed out ----------

  function Holding(s: Slot, item: nat): nat {
    if s == Busy(item) then 1 else 0
  }

  /** How many workers hold the item. */
  function Held(slots: seq<Slot>, item: nat): nat {
    if slots == [] then 0 else Holding(slots[0], item) + Held(slots[1..], item)
  }

  function HandedOut(n: nat, q: Queue): nat {
    if q.next < n then q.next else n
  }

  function Times(q: Queue, item: nat): nat {
    Held(q.slots, item) + multiset(q.finished)[item]
  }

  /** Every index handed out is held by one worker or finished once, never both. */
  ghost predicate Accounted(n: nat, q: Queue) {
    && (forall item: nat :: Times(q, item) == if item < HandedOut(n, q) then 1 else 0)
    && ((exists w | 0 <= w < |q.slots| :: q.slots[w].Done?) ==> q.next >= n)
  }

  lemma {:induction false} HeldUpdate(slots: seq<Slot>, w: nat, s: Slot, item: nat)
    requires w < |slots|
    ensures Held(slots[w := s], item) + Holding(slots[w], item) == Held(slots, item) + Holding(s, item)
  {
    if w == 0 {
      assert slots[0 := s][1..] == slots[1..];
    } else {
      assert slots[w := s][1..] == slots[1..][w - 1 := s];
      HeldUpdate(slots[1..], w - 1, s, item);
    }
  }

  lemma {:induction false} HeldNone(slots: seq<Slot>, item: nat)
    requires Busy(item) !in slots
    ensures Held(slots, item) == 0
  {
    if slots != [] {
      HeldNone(slots[1..], item);
    }
  }

  lemma StartAccounted(n: nat, width: nat)
    ensures Accounted(n, Start(width))
  {
    forall item: nat ensures Times(Start(width), item) == 0 {
      HeldNone(Start(width).slots, item);
    }
  }

  lemma StepAccounted(n: nat, d: Discipline, q: Queue, a: Action)
    requires Accounted(n, q) && Apply(n, d, q, a).Some?
    ensures Accounted(n, Apply(n, d, q, a).value)
    ensures |Apply(n, d, q, a).value.slots| == |q.slots|
  {
    var q', w := Apply(n, d, q, a).value, a.w;
    assert q'.slots == q.slots[w := q'.slots[w]];
    forall item: nat ensures Times(q', item) == if item < HandedOut(n, q') then 1 else 0 {
      HeldUpdate(q.slots, w, q'.slots[w], item);
      assert Times(q, item) == if item < HandedOut(n, q) then 1 else 0;
    }
    forall v | 0 <= v < |q'.slots| && q'.slots[v].Done? ensures q'.next >= n {
      assert v != w ==> q.slots[v].Done?;
    }
  }

  /** In every reachable state, under every interleaving, each index is out at most once. */
  lemma {:induction false} RunAccounted(n: nat, d: Discipline, q: Queue, acts: seq<Action>)
    requires Accounted(n, q) && Run(n, d, q, acts).Some?
    ensures Accounted(n, Run(n, d, q, acts).value)
    ensures |Run(n, d, q, acts).value.slots| == |q.slots|
    decreases |acts|
  {
    if acts != [] {
      StepAccounted(n, d, q, acts[0]);
      RunAccounted(n, d, Apply(n, d, q, acts[0]).value, acts[1..]);
    }
  }

  lemma {:induction false} HeldCounts(slots: seq<Slot>, w: nat)
    requires w < |slots| && slots[w].Busy?
    ensures Held(slots, slots[w].item) >= 1
  {
    if w > 0 {
      HeldCounts(slots[1..], w - 1);
    }
  }

  lemma {:induction false} HeldTwice(slots: seq<Slot>, v: nat, w: nat)
    requires v < w < |slots| && slots[v].Busy? && slots[v] == slots[w]
    ensures Held(slots, slots[w].item) >= 2
  {
    if v == 0 {
      HeldCounts(slots[1..], w - 1);
    } else {
      HeldTwice(slots[1..], v - 1, w - 1);
    }
  }

  /** Two workers never hold the same index, and none holds an index already finished. */
  lemma HeldApart(n: nat, q: Queue, v: nat, w: nat)
    requires Accounted(n, q) && v < w < |q.slots| && q.slots[v].Busy? && q.slots[w].Busy?
    ensures q.slots[v].item != q.slots[w].item && q.slots[v].item < n
    ensures q.slots[w].item !in q.finished && q.slots[w].item < n
  {
    var item := q.slots[w].item;
    HeldCounts(q.slots, w);
    HeldCounts(q.slots, v);
    assert Times(q, item) <= 1 && Times(q, q.slots[v].item) >= 1;
    assert item in q.finished ==> item in multiset(q.finished);
    if q.slots[v] == q.slots[w] {
      HeldTwice(q.slots, v, w);
    }
  }

  /** When every worker has stopped, every index below n was processed exactly once, and no other. */
  lemma ExactlyOnce(n: nat, d: Discipline, width: nat, acts: seq<Action>)
    requires width > 0 && Run(n, d, Start(width), acts).Some? && AllDone(Run(n, d, Start(width), acts).value)
    ensures forall item: nat ::
              multiset(Run(n, d, Start(width), acts).value.finished)[item] == if item < n then 1 else 0
  {
    var q := Run(n, d, Start(width), acts).value;
    StartAccounted(n, width);
    RunAccounted(n, d, Start(width), acts);
    assert q.slots[0].Done?;
    forall item: nat ensures multiset(q.finished)[item] == if item < n then 1 else 0 {
      HeldNone(q.slots, item);
      assert Times(q, item) == if item < HandedOut(n, q) then 1 else 0;
    }
  }

  // ---------- Every run ends, and ends only when all workers have stopped ----------

  /** The steps a worker still owes if it is given nothing more. */
  function Debt(s: Slot): nat {
    match s case Idle => 1 case Busy(_) => 2 case Done => 0
  }

  function Owed(slots: seq<Slot>): nat {
    if slots == [] then 0
    else Debt(slots[0]) + Owed(slots[1..])
  }

  function Remaining(n: nat, q: Queue): nat {
    3 * (n - HandedOut(n, q)) + Owed(q.slots)
  }

  lemma {:induction false} OwedUpdate(slots: seq<Slot>, w: nat, s: Slot)
    requires w < |slots|
    ensures Owed(slots[w := s]) + Debt(slots[w]) == Owed(slots) + Debt(s)
  {
    if w == 0 {
      assert slots[0 := s][1..] == slots[1..];
    } else {
      assert slots[w := s][1..] == slots[1..][w - 1 := s];
      OwedUpdate(slots[1..], w - 1, s);
    }
  }

  lemma StepsRunOut(n: nat, d: Discipline, q: Queue, a: Action)
    requires Apply(n, d, q, a).Some?
    ensures Remaining(n, Apply(n, d, q, a).value) < Remaining(n, q)
  {
    var q' := Apply(n, d, q, a).value;
    OwedUpdate(q.slots, a.w, q'.slots[a.w]);
    assert q'.slots == q.slots[a.w := q'.slots[a.w]];
  }

  /** No run is longer than three steps an item and one a worker. */
  lemma {:induction false} RunsAreShort(n: nat, d: Discipline, q: Queue, acts: seq<Action>)
    requires Run(n, d, q, acts).Some?
    ensures |acts| + Remaining(n, Run(n, d, q, acts).value) <= Remaining(n, q)
    decreases |acts|
  {
    if acts != [] {
      StepsRunOut(n, d, q, acts[0]);
      RunsAreShort(n, d, Apply(n, d, q, acts[0]).value, acts[1..]);
    }
  }

  /** A run that cannot be extended has stopped every worker. */
  lemma StuckMeansDone(n: nat, d: Discipline, q: Queue)
    ensures (forall a :: Apply(n, d, q, a).None?) <==> AllDone(q)
  {
    if !AllDone(q) {
      var w :| 0 <= w < |q.slots| && !q.slots[w].Done?;
      if q.slots[w].Idle? {
        assert Apply(n, d, q, Take(w)).Some?;
      } else {
        assert Apply(n, d, q, Finish(w)).Some?;
      }
    }
  }
}
