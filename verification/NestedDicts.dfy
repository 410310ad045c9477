/** `_iter_nested_dicts`: the dictionaries inside a decoded object, breadth first.

  A dictionary carries its identity, as `id()` gives it. A decoded document is a tree: no two of its
  dictionaries have the same identity. */
module NestedDicts {

  datatype Value = Dict(id: nat, values: seq<Value>) | List(items: seq<Value>) | Scalar

  function Children(v: Value): seq<Value> {
    match v
    case Dict(_, values) => values
    case List(items) => items
    case Scalar => []
  }

  function Size(v: Value): nat
    decreases v
  {
    match v
    case Dict(_, values) => 1 + SizeAll(values)
    case List(items) => 1 + SizeAll(items)
    case Scalar => 1
  }

  function SizeAll(vs: seq<Value>): nat
    decreases vs
  {
    if vs == [] then 0 else Size(vs[0]) + SizeAll(vs[1..])
  }

  /** The identities of all dictionaries in a value, at any depth, with repetition. */
  function Ids(v: Value): multiset<nat>
    decreases v
  {
    match v
    case Dict(id, values) => multiset{id} + IdsAll(values)
    case List(items) => IdsAll(items)
    case Scalar => multiset{}
  }

  function IdsAll(vs: seq<Value>): multiset<nat>
    decreases vs
  {
    if vs == [] then multiset{} else Ids(vs[0]) + IdsAll(vs[1..])
  }

  /** The identities strictly inside the values. */
  function InnerIds(vs: seq<Value>): multiset<nat> {
    if vs == [] then multiset{} else IdsAll(Children(vs[0])) + InnerIds(vs[1..])
  }

  ghost predicate IsOnce(ids: multiset<nat>) {
    forall id :: ids[id] <= 1
  }

  /** No two dictionaries of the value are the same object. */
  ghost predicate IsTree(v: Value) {
    IsOnce(Ids(v))
  }

  /** The dictionaries and lists among the values, and the dictionaries alone. */
  function Containers(vs: seq<Value>): seq<Value> {
    if vs == [] then []
    else (if vs[0].Scalar? then [] else [vs[0]]) + Containers(vs[1..])
  }

  function Dicts(vs: seq<Value>): seq<Value> {
    if vs == [] then []
    else (if vs[0].Dict? then [vs[0]] else []) + Dicts(vs[1..])
  }

  function Next(level: seq<Value>): seq<Value> {
    if level == [] then [] else Containers(Children(level[0])) + Next(level[1..])
  }

  /** The dictionaries level by level: those of this level, then those one level further down. */
  function ByLevel(level: seq<Value>): seq<Value>
    decreases SizeAll(level)
  {
    if level == [] then []
    else
      NextIsSmaller(level);
      Dicts(level) + ByLevel(Next(level))
  }

  // ----- The traversal

  datatype Walk = Walk(candidates: seq<Value>, queue: seq<Value>, seen: set<nat>)

  function Look(w: Walk, v: Value): Walk {
    match v
    case Dict(id, _) => if id in w.seen then w else Walk(w.candidates + [v], w.queue + [v], w.seen + {id})
    case List(_) => w.(queue := w.queue + [v])
    case Scalar => w
  }

  /** `_queue_nested_candidates` */
  function Queued(w: Walk, values: seq<Value>): Walk
    decreases |values|
  {
    if values == [] then w else Queued(Look(w, values[0]), values[1..])
  }

  function Pop(w: Walk): Walk
    requires w.queue != []
  {
    Queued(w.(queue := w.queue[1..]), Children(w.queue[0]))
  }

  function RunAll(w: Walk): seq<Value>
    decreases SizeAll(w.queue)
  {
    if w.queue == [] then w.candidates
    else
      PopShrinks(w);
      RunAll(Pop(w))
  }

  function Start(payload: Value): Walk
    requires payload.Dict?
  {
    Walk([payload], [payload], {payload.id})
  }

  /** The three collections that `_iter_nested_dicts` shares with `_queue_nested_candidates`. */
  class Traversal {
    var candidates: seq<Value>
    var queue: seq<Value>
    var seen: set<nat>

    constructor (payload: Value)
      requires payload.Dict?
      ensures State() == Start(payload)
    {
      candidates, queue, seen := [payload], [payload], {payload.id};
    }

    function State(): Walk
      reads this
    {
      Walk(candidates, queue, seen)
    }

    method QueueNestedCandidates(values: seq<Value>)
      modifies this
      ensures State() == Queued(old(State()), values)
    {
      for i := 0 to |values|
        invariant Queued(State(), values[i..]) == Queued(old(State()), values)
      {
        var value := values[i];
        assert values[i..][1..] == values[i + 1..];
        if value.Dict? {
          if value.id !in seen {
            seen := seen + {value.id};
            candidates := candidates + [value];
            queue := queue + [value];
          }
        } else if value.List? {
          queue := queue + [value];
        }
      }
    }
  }

  method IterNestedDicts(payload: Value) returns (candidates: seq<Value>)
    requires payload.Dict?
    ensures candidates == RunAll(Start(payload))
  {
    var walk := new Traversal(payload);
    while walk.queue != []
      invariant RunAll(walk.State()) == RunAll(Start(payload))
      decreases SizeAll(walk.queue)
    {
      PopShrinks(walk.State());
      var current := walk.queue[0];
      walk.queue := walk.queue[1..];
      walk.QueueNestedCandidates(Children(current));
    }
    candidates := walk.candidates;
  }

  // ----- It ends

  lemma {:induction false} SizeAllConcat(a: seq<Value>, b: seq<Value>)
    ensures SizeAll(a + b) == SizeAll(a) + SizeAll(b)
  {
    if a == [] {
      assert a + b == b;
    } else {
      assert (a + b)[1..] == a[1..] + b;
      SizeAllConcat(a[1..], b);
    }
  }

  lemma {:induction false} ContainersAreSmaller(vs: seq<Value>)
    ensures SizeAll(Containers(vs)) <= SizeAll(vs)
  {
    if vs != [] {
      var first := if vs[0].Scalar? then [] else [vs[0]];
      ContainersAreSmaller(vs[1..]);
      SizeAllConcat(first, Containers(vs[1..]));
      assert [vs[0]][1..] == [] && SizeAll([vs[0]]) == Size(vs[0]);
    }
  }

  lemma {:induction false} NextIsSmaller(level: seq<Value>)
    ensures level != [] ==> SizeAll(Next(level)) < SizeAll(level)
  {
    if level != [] {
      var first := Children(level[0]);
      NextIsSmaller(level[1..]);
      ContainersAreSmaller(first);
      SizeAllConcat(Containers(first), Next(level[1..]));
      assert Size(level[0]) == 1 + SizeAll(first);
    }
  }

  lemma {:induction false} QueuedIsBounded(w: Walk, values: seq<Value>)
    ensures SizeAll(Queued(w, values).queue) <= SizeAll(w.queue) + SizeAll(values)
    decreases |values|
  {
    if values != [] {
      var v := values[0];
      QueuedIsBounded(Look(w, v), values[1..]);
      SizeAllConcat(w.queue, [v]);
      assert [v][1..] == [] && SizeAll([v]) == Size(v);
    }
  }

  lemma PopShrinks(w: Walk)
    requires w.queue != []
    ensures SizeAll(Pop(w).queue) < SizeAll(w.queue)
  {
    var first := w.queue[0];
    QueuedIsBounded(w.(queue := w.queue[1..]), Children(first));
    assert Size(first) == 1 + SizeAll(Children(first));
  }

  // ----- Every dictionary once

  function IdsOf(candidates: seq<Value>): multiset<nat> {
    if candidates == [] then multiset{}
    else
      var last := candidates[|candidates| - 1];
      IdsOf(candidates[..|candidates| - 1]) + if last.Dict? then multiset{last.id} else multiset{}
  }

  ghost predicate IsConsistent(w: Walk) {
    IdsOf(w.candidates) == multiset(w.seen)
  }

  /** What was seen and what is still to come, when `values` are still to be looked at. */
  function Accounted(w: Walk, values: seq<Value>): multiset<nat> {
    multiset(w.seen) + InnerIds(w.queue) + IdsAll(values)
  }

  lemma {:induction false} InnerIdsConcat(a: seq<Value>, b: seq<Value>)
    ensures InnerIds(a + b) == InnerIds(a) + InnerIds(b)
  {
    if a == [] {
      assert a + b == b;
    } else {
      assert (a + b)[1..] == a[1..] + b;
      InnerIdsConcat(a[1..], b);
    }
  }

  predicate IsSeen(w: Walk, v: Value) {
    v.Dict? && v.id in w.seen
  }

  lemma SeenTwice(w: Walk, values: seq<Value>)
    requires values != [] && IsSeen(w, values[0])
    ensures !IsOnce(Accounted(w, values))
  {
    var id := values[0].id;
    assert IdsAll(values) == Ids(values[0]) + IdsAll(values[1..]);
    assert Ids(values[0])[id] >= 1 && multiset(w.seen)[id] == 1;
    assert Accounted(w, values)[id] >= 2;
  }

  lemma LookIsConsistent(w: Walk, v: Value)
    requires IsConsistent(w)
    ensures IsConsistent(Look(w, v))
  {
    if v.Dict? && !IsSeen(w, v) {
      assert (w.candidates + [v])[..|w.candidates|] == w.candidates;
      assert multiset(w.seen + {v.id}) == multiset(w.seen) + multiset{v.id};
    }
  }

  lemma InnerIdsOfOne(queue: seq<Value>, v: Value)
    ensures InnerIds(queue + [v]) == InnerIds(queue) + IdsAll(Children(v))
  {
    assert [v][1..] == [] && InnerIds([v]) == IdsAll(Children(v)) + InnerIds([]);
    InnerIdsConcat(queue, [v]);
  }

  lemma Regroup(seen: multiset<nat>, own: multiset<nat>, queued: multiset<nat>, inner: multiset<nat>,
                rest: multiset<nat>)
    ensures seen + own + (queued + inner) + rest == seen + queued + (own + inner + rest)
  {
  }

  function OwnId(v: Value): set<nat> {
    if v.Dict? then {v.id} else {}
  }

  /** What is looked at moves from the values to what was seen and to the queue. */
  lemma LookMoves(w: Walk, v: Value, rest: seq<Value>)
    requires !IsSeen(w, v)
    ensures Accounted(Look(w, v), rest) == multiset(w.seen) + InnerIds(w.queue) + (Ids(v) + IdsAll(rest))
  {
    var w' := Look(w, v);
    assert multiset(w'.seen) == multiset(w.seen) + multiset(OwnId(v));
    assert InnerIds(w'.queue) == InnerIds(w.queue) + IdsAll(Children(v)) by {
      InnerIdsOfOne(w.queue, v);
    }
    assert Ids(v) == multiset(OwnId(v)) + IdsAll(Children(v));
    Regroup(multiset(w.seen), multiset(OwnId(v)), InnerIds(w.queue), IdsAll(Children(v)), IdsAll(rest));
  }

  lemma LookKeeps(w: Walk, values: seq<Value>)
    requires values != [] && IsConsistent(w) && IsOnce(Accounted(w, values))
    ensures !IsSeen(w, values[0]) && IsConsistent(Look(w, values[0]))
    ensures Accounted(Look(w, values[0]), values[1..]) == Accounted(w, values)
  {
    if IsSeen(w, values[0]) {
      SeenTwice(w, values);
    } else {
      LookIsConsistent(w, values[0]);
      LookMoves(w, values[0], values[1..]);
    }
  }

  lemma {:induction false} QueuedKeeps(w: Walk, values: seq<Value>)
    requires IsConsistent(w)
    ensures IsConsistent(Queued(w, values))
    ensures IsOnce(Accounted(w, values)) ==> Accounted(Queued(w, values), []) == Accounted(w, values)
    decreases |values|
  {
    if values != [] {
      LookIsConsistent(w, values[0]);
      QueuedKeeps(Look(w, values[0]), values[1..]);
      if IsOnce(Accounted(w, values)) {
        LookKeeps(w, values);
      }
    }
  }

  lemma {:induction false} RunKeeps(w: Walk)
    requires IsConsistent(w)
    ensures IsOnce(IdsOf(RunAll(w)))
    ensures IsOnce(Accounted(w, [])) ==> IdsOf(RunAll(w)) == Accounted(w, [])
    decreases SizeAll(w.queue)
  {
    if w.queue != [] {
      var rest := w.(queue := w.queue[1..]);
      assert Accounted(rest, Children(w.queue[0])) == Accounted(w, []);
      QueuedKeeps(rest, Children(w.queue[0]));
      PopShrinks(w);
      RunKeeps(Pop(w));
    }
  }

  lemma StartIsAccounted(payload: Value)
    requires payload.Dict?
    ensures IsConsistent(Start(payload)) && Accounted(Start(payload), []) == Ids(payload)
  {
    var w := Start(payload);
    assert [payload][..0] == [] && IdsOf([payload]) == IdsOf([]) + multiset{payload.id};
    assert multiset(w.seen) == multiset{payload.id};
    assert [payload][1..] == [] && InnerIds([payload]) == IdsAll(payload.values) + InnerIds([]);
    assert IdsAll([]) == multiset{};
  }

  /** No dictionary is returned twice, and from a tree every dictionary at any depth is returned. */
  lemma EveryDictOnce(payload: Value)
    requires payload.Dict?
    ensures IsOnce(IdsOf(RunAll(Start(payload))))
    ensures IsTree(payload) ==> IdsOf(RunAll(Start(payload))) == Ids(payload)
  {
    var w := Start(payload);
    StartIsAccounted(payload);
    RunKeeps(w);
  }

  // ----- Level by level

  predicate NoneSeen(w: Walk, values: seq<Value>)
    decreases |values|
  {
    values != [] ==> !IsSeen(w, values[0]) && NoneSeen(Look(w, values[0]), values[1..])
  }

  lemma {:induction false} OnceIsUnseen(w: Walk, values: seq<Value>)
    requires IsOnce(Accounted(w, values)) && IsConsistent(w)
    ensures NoneSeen(w, values)
    decreases |values|
  {
    if values != [] {
      LookKeeps(w, values);
      OnceIsUnseen(Look(w, values[0]), values[1..]);
    }
  }

  lemma {:induction false} QueuedAdds(w: Walk, values: seq<Value>)
    requires NoneSeen(w, values)
    ensures Queued(w, values).candidates == w.candidates + Dicts(values)
    ensures Queued(w, values).queue == w.queue + Containers(values)
    decreases |values|
  {
    if values != [] {
      var w' := Look(w, values[0]);
      QueuedAdds(w', values[1..]);
      assert w'.candidates == w.candidates + if values[0].Dict? then [values[0]] else [];
      assert w'.queue == w.queue + if values[0].Scalar? then [] else [values[0]];
    }
  }

  lemma {:induction false} DictsConcat(a: seq<Value>, b: seq<Value>)
    ensures Dicts(a + b) == Dicts(a) + Dicts(b)
  {
    if a == [] {
      assert a + b == b;
    } else {
      var one := if a[0].Dict? then [a[0]] else [];
      assert (a + b)[1..] == a[1..] + b && (a + b)[0] == a[0];
      DictsConcat(a[1..], b);
      assert Dicts(a + b) == one + Dicts(a[1..] + b);
      assert one + (Dicts(a[1..]) + Dicts(b)) == one + Dicts(a[1..]) + Dicts(b);
    }
  }

  lemma PopAdds(w: Walk)
    requires w.queue != [] && IsOnce(Accounted(w, [])) && IsConsistent(w)
    ensures Pop(w).candidates == w.candidates + Dicts(Children(w.queue[0]))
    ensures Pop(w).queue == w.queue[1..] + Containers(Children(w.queue[0]))
    ensures IsOnce(Accounted(Pop(w), [])) && IsConsistent(Pop(w))
  {
    var first, rest := Children(w.queue[0]), w.(queue := w.queue[1..]);
    assert Accounted(rest, first) == Accounted(w, []);
    OnceIsUnseen(rest, first);
    QueuedAdds(rest, first);
    QueuedKeeps(rest, first);
  }

  /** What the run returns when the queue holds the rest of one level and the start of the next. */
  function Expected(candidates: seq<Value>, level: seq<Value>, below: seq<Value>): seq<Value> {
    candidates + Dicts(Next(level)) + ByLevel(Next(below + Next(level)))
  }

  lemma ExpectedAfterPop(candidates: seq<Value>, level: seq<Value>, below: seq<Value>)
    requires level != []
    ensures
      var first := Children(level[0]);
      Expected(candidates + Dicts(first), level[1..], below + Containers(first)) == Expected(candidates, level, below)
  {
    var first := Children(level[0]);
    var rest := Next(level[1..]);
    assert Next(level) == Containers(first) + rest;
    assert candidates + Dicts(first) + Dicts(rest) == candidates + Dicts(Next(level)) by {
      DictsOfContainers(first);
      DictsConcat(Containers(first), rest);
    }
    assert below + Containers(first) + rest == below + Next(level);
  }

  lemma ExpectedOnNewLevel(candidates: seq<Value>, below: seq<Value>)
    ensures Expected(candidates, [], below) == Expected(candidates, below, [])
  {
    assert below + Next([]) == below && [] + Next(below) == Next(below);
    assert candidates + Dicts([]) == candidates;
  }

  lemma {:induction false} RunByLevel(w: Walk, level: seq<Value>, below: seq<Value>)
    requires w.queue == level + below && IsOnce(Accounted(w, [])) && IsConsistent(w)
    ensures RunAll(w) == Expected(w.candidates, level, below)
    decreases SizeAll(w.queue), |below|
  {
    if w.queue == [] {
      assert Expected(w.candidates, [], []) == w.candidates;
    } else if level == [] {
      assert w.queue == below + [];
      RunByLevel(w, below, []);
      ExpectedOnNewLevel(w.candidates, below);
    } else {
      var below' := below + Containers(Children(level[0]));
      PopAdds(w);
      PopShrinks(w);
      assert Pop(w).queue == level[1..] + below';
      RunByLevel(Pop(w), level[1..], below');
      ExpectedAfterPop(w.candidates, level, below);
    }
  }

  lemma {:induction false} DictsOfContainers(vs: seq<Value>)
    ensures Dicts(Containers(vs)) == Dicts(vs)
  {
    if vs != [] {
      DictsOfContainers(vs[1..]);
      DictsConcat(if vs[0].Scalar? then [] else [vs[0]], Containers(vs[1..]));
    }
  }

  lemma ExpectedAtStart(payload: Value)
    requires payload.Dict?
    ensures Expected([payload], [payload], []) == ByLevel([payload])
  {
    var next := Next([payload]);
    assert [] + next == next;
    assert Dicts([payload]) == [payload];
    assert ByLevel([payload]) == [payload] + ByLevel(next);
    assert ByLevel(next) == Dicts(next) + ByLevel(Next(next)) by {
      if next == [] {
        assert Dicts(next) + ByLevel(Next(next)) == [];
      }
    }
    assert [payload] + Dicts(next) + ByLevel(Next(next)) == [payload] + (Dicts(next) + ByLevel(Next(next)));
  }

  /** From a tree the dictionaries come level by level, the payload first. */
  lemma RunIsByLevel(payload: Value)
    requires payload.Dict? && IsTree(payload)
    ensures RunAll(Start(payload)) == ByLevel([payload])
  {
    var w := Start(payload);
    StartIsAccounted(payload);
    assert w.queue == [payload] + [];
    RunByLevel(w, [payload], []);
    ExpectedAtStart(payload);
  }
}
