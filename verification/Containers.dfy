/** The list of containers, from a provider's merge to the agent's array of exported objects.
  *
  * A container is compared by id only.  `version` tells apart two objects with the same id: a merge
  * replaces the provider's object by the newer one, while the agent keeps exporting the old one.
  */
module Containers {

  datatype Container = Container(id: string, version: nat)

  function Ids(cs: seq<Container>): seq<string> {
    if cs == [] then [] else [cs[0].id] + Ids(cs[1..])
  }

  /** The first container with an id, or |cs|. */
  function FindId(cs: seq<Container>, id: string): (i: nat)
    ensures i <= |cs|
    ensures i < |cs| ==> cs[i].id == id
    ensures forall j :: 0 <= j < i ==> cs[j].id != id
  {
    if cs == [] || cs[0].id == id then 0 else 1 + FindId(cs[1..], id)
  }

  predicate HasId(cs: seq<Container>, id: string) { FindId(cs, id) < |cs| }

  ghost predicate UniqueIds(cs: seq<Container>) {
    forall i, j :: 0 <= i < j < |cs| ==> cs[i].id != cs[j].id
  }

  // ---------- merge, on values ----------

  /** The containers that stay, each replaced by the first of the new ones with its id. */
  function Survivors(cs: seq<Container>, input: seq<Container>): seq<Container> {
    if cs == [] then []
    else (if HasId(input, cs[0].id) then [input[FindId(input, cs[0].id)]] else []) + Survivors(cs[1..], input)
  }

  function AddFresh(cs: seq<Container>, input: seq<Container>): seq<Container>
    decreases |input|
  {
    if input == [] then cs
    else AddFresh(if HasId(cs, input[0].id) then cs else cs + [input[0]], input[1..])
  }

  function Merge(cs: seq<Container>, input: seq<Container>): seq<Container> {
    AddFresh(Survivors(cs, input), input)
  }

  /** The two signals other objects listen to, by id. */
  datatype Signal = Added(id: string) | Removed(id: string)

  /** Departures are announced from the end of the list to its beginning. */
  function Departures(cs: seq<Container>, input: seq<Container>): seq<Signal> {
    if cs == [] then []
    else
      var last := cs[|cs| - 1];
      (if HasId(input, last.id) then [] else [Removed(last.id)]) + Departures(cs[..|cs| - 1], input)
  }

  function Arrivals(cs: seq<Container>, input: seq<Container>): seq<Signal>
    decreases |input|
  {
    if input == [] then []
    else if HasId(cs, input[0].id) then Arrivals(cs, input[1..])
    else [Added(input[0].id)] + Arrivals(cs + [input[0]], input[1..])
  }

  function MergeSignals(cs: seq<Container>, input: seq<Container>): seq<Signal> {
    Departures(cs, input) + Arrivals(Survivors(cs, input), input)
  }

  // ---------- what a merge amounts to ----------

  /** The ids of cs that the input still has, in the order of cs. */
  function Kept(ids: seq<string>, input: seq<string>): seq<string> {
    if ids == [] then [] else (if ids[0] in input then [ids[0]] else []) + Kept(ids[1..], input)
  }

  /** The ids not seen before, each at its first occurrence. */
  function FirstOccurrences(input: seq<string>, seen: set<string>): seq<string> {
    if input == [] then []
    else if input[0] in seen then FirstOccurrences(input[1..], seen)
    else [input[0]] + FirstOccurrences(input[1..], seen + {input[0]})
  }

  function IdSet(cs: seq<Container>): set<string> { set c | c in cs :: c.id }

  lemma {:induction false} IdsAt(cs: seq<Container>)
    ensures |Ids(cs)| == |cs|
    ensures forall i :: 0 <= i < |cs| ==> Ids(cs)[i] == cs[i].id
    ensures forall id :: id in Ids(cs) <==> id in IdSet(cs)
  {
    if cs != [] {
      IdsAt(cs[1..]);
      forall i | 0 <= i < |cs| ensures Ids(cs)[i] == cs[i].id {
        if i > 0 { assert Ids(cs)[i] == Ids(cs[1..])[i - 1] && cs[i] == cs[1..][i - 1]; }
      }
      forall id ensures id in Ids(cs) <==> id in IdSet(cs) {
        assert cs == [cs[0]] + cs[1..];
      }
    }
  }

  lemma HasIdIsIn(cs: seq<Container>, id: string)
    ensures HasId(cs, id) <==> id in Ids(cs)
    ensures HasId(cs, id) <==> id in IdSet(cs)
  {
    IdsAt(cs);
    if HasId(cs, id) { assert cs[FindId(cs, id)] in cs; }
    if id in IdSet(cs) {
      var c :| c in cs && c.id == id;
      var i :| 0 <= i < |cs| && cs[i] == c;
      assert cs[i].id == id;
    }
  }

  lemma {:induction false} IdsAppend(a: seq<Container>, b: seq<Container>)
    ensures Ids(a + b) == Ids(a) + Ids(b)
  {
    if a == [] {
      assert a + b == b;
    } else {
      assert (a + b)[1..] == a[1..] + b;
      IdsAppend(a[1..], b);
    }
  }

  lemma {:induction false} SurvivorsAreKept(cs: seq<Container>, input: seq<Container>)
    ensures Ids(Survivors(cs, input)) == Kept(Ids(cs), Ids(input))
  {
    if cs != [] {
      SurvivorsAreKept(cs[1..], input);
      HasIdIsIn(input, cs[0].id);
      var rest := Survivors(cs[1..], input);
      if HasId(input, cs[0].id) {
        assert Survivors(cs, input)[1..] == rest;
      } else {
        assert Survivors(cs, input) == rest;
      }
    }
  }

  lemma {:induction false} FreshAreFirst(cs: seq<Container>, input: seq<Container>)
    ensures Ids(AddFresh(cs, input)) == Ids(cs) + FirstOccurrences(Ids(input), IdSet(cs))
    decreases |input|
  {
    if input != [] {
      var c := input[0];
      HasIdIsIn(cs, c.id);
      if HasId(cs, c.id) {
        FreshAreFirst(cs, input[1..]);
      } else {
        FreshAreFirst(cs + [c], input[1..]);
        IdsAppend(cs, [c]);
        assert IdSet(cs + [c]) == IdSet(cs) + {c.id};
      }
    }
  }

  /** After a merge: the old ids the input still has, in old order, then the input's new ids, each at
    * its first occurrence, duplicates and all. */
  lemma MergeOrder(cs: seq<Container>, input: seq<Container>)
    ensures var kept := Survivors(cs, input);
      Ids(Merge(cs, input)) == Kept(Ids(cs), Ids(input)) + FirstOccurrences(Ids(input), IdSet(kept))
  {
    SurvivorsAreKept(cs, input);
    FreshAreFirst(Survivors(cs, input), input);
  }

  // ---------- uniqueness ----------

  lemma {:induction false} SurvivorIds(cs: seq<Container>, input: seq<Container>)
    requires UniqueIds(cs)
    ensures UniqueIds(Survivors(cs, input))
    ensures forall c :: c in Survivors(cs, input) ==> HasId(cs, c.id) && HasId(input, c.id) && c == input[FindId(input, c.id)]
    ensures forall id :: HasId(cs, id) && HasId(input, id) ==> HasId(Survivors(cs, input), id)
  {
    if cs != [] {
      var s := Survivors(cs[1..], input);
      assert UniqueIds(cs[1..]);
      SurvivorIds(cs[1..], input);
      forall j | 0 <= j < |s| ensures s[j].id != cs[0].id {
        assert s[j] in s;
        var k := FindId(cs[1..], s[j].id);
        assert cs[k + 1].id == s[j].id;
      }
      forall id | HasId(cs, id) && HasId(input, id) ensures HasId(Survivors(cs, input), id) {
        if id != cs[0].id {
          assert HasId(s, id);
          HasIdIsIn(s, id);
          HasIdIsIn(Survivors(cs, input), id);
        }
      }
    }
  }

  lemma {:induction false} FreshKeepsUnique(cs: seq<Container>, input: seq<Container>)
    requires UniqueIds(cs)
    ensures UniqueIds(AddFresh(cs, input))
    decreases |input|
  {
    if input != [] { FreshKeepsUnique(if HasId(cs, input[0].id) then cs else cs + [input[0]], input[1..]); }
  }

  lemma {:induction false} FreshHasAll(cs: seq<Container>, input: seq<Container>, id: string)
    ensures HasId(AddFresh(cs, input), id) <==> HasId(cs, id) || HasId(input, id)
    decreases |input|
  {
    if input != [] {
      var cs' := if HasId(cs, input[0].id) then cs else cs + [input[0]];
      FreshHasAll(cs', input[1..], id);
      HasIdIsIn(cs, id);
      HasIdIsIn(cs', id);
      IdsAppend(cs, [input[0]]);
    }
  }

  /** A merge keeps ids unique, and afterwards the provider has exactly the ids of the input. */
  lemma MergeIds(cs: seq<Container>, input: seq<Container>, id: string)
    requires UniqueIds(cs)
    ensures UniqueIds(Merge(cs, input))
    ensures HasId(Merge(cs, input), id) <==> HasId(input, id)
  {
    var s := Survivors(cs, input);
    SurvivorIds(cs, input);
    FreshKeepsUnique(s, input);
    FreshHasAll(s, input, id);
    if HasId(s, id) { assert s[FindId(s, id)] in s; }
  }

  /** The container is the input's first object with its id. */
  ghost predicate IsFirstOf(input: seq<Container>, c: Container) {
    exists k :: 0 <= k < |input| && input[k] == c && forall j :: 0 <= j < k ==> input[j].id != c.id
  }

  lemma {:induction false} FreshObjects(cs: seq<Container>, input: seq<Container>, c: Container)
    requires c in AddFresh(cs, input)
    ensures c in cs || (!HasId(cs, c.id) && IsFirstOf(input, c))
    decreases |input|
  {
    if input != [] {
      var x, rest := input[0], input[1..];
      var cs' := if HasId(cs, x.id) then cs else cs + [x];
      FreshObjects(cs', rest, c);
      HasIdIsIn(cs, x.id);
      HasIdIsIn(cs, c.id);
      HasIdIsIn(cs', c.id);
      IdsAppend(cs, [x]);
      IdsOne(x);
      hide HasId, AddFresh;
      if c !in cs' {
        assert c.id != x.id;
        var k :| 0 <= k < |rest| && rest[k] == c && forall j :: 0 <= j < k ==> rest[j].id != c.id;
        assert input[k + 1] == c;
        forall j | 0 <= j < k + 1 ensures input[j].id != c.id { if j > 0 { assert input[j] == rest[j - 1]; } }
      } else if c !in cs {
        assert input[0] == c;
      }
    }
  }

  /** After a merge every container is the input's first object with its id, a survivor as well as one
    * that is new. */
  lemma MergedObjects(cs: seq<Container>, input: seq<Container>, c: Container)
    requires UniqueIds(cs) && c in Merge(cs, input)
    ensures exists k :: 0 <= k < |input| && input[k] == c && forall j :: 0 <= j < k ==> input[j].id != c.id
  {
    var s := Survivors(cs, input);
    SurvivorIds(cs, input);
    FreshObjects(s, input, c);
    hide Survivors, AddFresh;
    if c in s {
      var k := FindId(input, c.id);
      assert input[k] == c;
    } else {
      assert IsFirstOf(input, c);
    }
  }

  /** Merging the same input again changes nothing. */
  lemma MergeIdempotent(cs: seq<Container>, input: seq<Container>)
    requires UniqueIds(cs)
    ensures Ids(Merge(Merge(cs, input), input)) == Ids(Merge(cs, input))
  {
    var m := Merge(cs, input);
    forall id ensures HasId(m, id) <==> HasId(input, id) { MergeIds(cs, input, id); }
    IdsAt(m);
    forall id | id in Ids(m) ensures id in Ids(input) { HasIdIsIn(m, id); HasIdIsIn(input, id); }
    KeptAll(Ids(m), Ids(input));
    MergeOrder(m, input);
    var s := Survivors(m, input);
    forall id | id in Ids(input) ensures id in IdSet(s) {
      HasIdIsIn(input, id);
      MergeIds(cs, input, id);
      MergeIds(cs, input, "");
      SurvivorIds(m, input);
      HasIdIsIn(s, id);
    }
    NothingNew(Ids(input), IdSet(s));
  }

  lemma {:induction false} KeptAll(ids: seq<string>, input: seq<string>)
    requires forall id :: id in ids ==> id in input
    ensures Kept(ids, input) == ids
  {
    if ids != [] { KeptAll(ids[1..], input); }
  }

  lemma {:induction false} NothingNew(input: seq<string>, seen: set<string>)
    requires forall id :: id in input ==> id in seen
    ensures FirstOccurrences(input, seen) == []
  {
    if input != [] { NothingNew(input[1..], seen); }
  }

  // ---------- the agent's array follows ----------

  function IndexOfId(ids: seq<string>, id: string): (i: nat)
    ensures i <= |ids|
    ensures i < |ids| ==> ids[i] == id
    ensures forall j :: 0 <= j < i ==> ids[j] != id
  {
    if ids == [] || ids[0] == id then 0 else 1 + IndexOfId(ids[1..], id)
  }

  /** What the agent's callbacks do to the ids of its array. */
  function Follow(ids: seq<string>, s: Signal): seq<string> {
    match s
    case Added(id) => ids + [id]
    case Removed(id) =>
      var i := IndexOfId(ids, id);
      if i < |ids| then ids[..i] + ids[i + 1..] else ids
  }

  function FollowAll(ids: seq<string>, signals: seq<Signal>): seq<string>
    decreases |signals|
  {
    if signals == [] then ids else FollowAll(Follow(ids, signals[0]), signals[1..])
  }

  lemma {:induction false} FollowAppend(ids: seq<string>, a: seq<Signal>, b: seq<Signal>)
    ensures FollowAll(ids, a + b) == FollowAll(FollowAll(ids, a), b)
    decreases |a|
  {
    if a == [] {
      assert a + b == b;
    } else {
      assert (a + b)[1..] == a[1..] + b;
      FollowAppend(Follow(ids, a[0]), a[1..], b);
    }
  }

  /** No container that leaves the provider shares its id with one of the agent's own. */
  ghost predicate LeavesAlone(base: seq<string>, cs: seq<Container>, input: seq<Container>) {
    forall c :: c in cs && !HasId(input, c.id) ==> c.id !in base
  }

  lemma DeparturesLast(front: seq<Container>, last: Container, input: seq<Container>)
    ensures Departures(front + [last], input)
         == (if HasId(input, last.id) then [] else [Removed(last.id)]) + Departures(front, input)
  {
    var cs := front + [last];
    assert cs[|cs| - 1] == last && cs[..|cs| - 1] == front;
  }

  lemma LastKept(ids: seq<string>, id: string, input: seq<string>)
    ensures Kept(ids + [id], input) == Kept(ids, input) + if id in input then [id] else []
  {
    KeptAppend(ids, [id], input);
    assert Kept([id], input) == if id in input then [id] else [];
  }

  lemma FollowFirst(ids: seq<string>, s: Signal, rest: seq<Signal>)
    ensures FollowAll(ids, [s] + rest) == FollowAll(Follow(ids, s), rest)
  {
    assert ([s] + rest)[1..] == rest;
  }

  /** One container fewer at the end of the provider's list, if it leaves. */
  lemma LastDeparts(base: seq<string>, front: seq<Container>, last: Container, input: seq<Container>, tail: seq<string>)
    requires UniqueIds(front + [last]) && last.id !in base && !HasId(input, last.id)
    ensures FollowAll(base + Ids(front + [last]) + tail, Departures(front + [last], input))
         == FollowAll(base + Ids(front) + tail, Departures(front, input))
    ensures Kept(Ids(front + [last]), Ids(input)) == Kept(Ids(front), Ids(input))
  {
    hide FollowAll, Follow, Departures, Kept, Ids;
    DeparturesLast(front, last, input);
    LastLeaves(base, front, last, tail);
    FollowFirst(base + Ids(front + [last]) + tail, Removed(last.id), Departures(front, input));
    IdsAppend(front, [last]);
    IdsOne(last);
    HasIdIsIn(input, last.id);
    LastKept(Ids(front), last.id, Ids(input));
  }

  lemma IdsOne(c: Container)
    ensures Ids([c]) == [c.id]
  {}

  /** The last container stays: it counts as part of what stands behind the others. */
  lemma LastStays(base: seq<string>, front: seq<Container>, last: Container, input: seq<Container>, tail: seq<string>)
    requires HasId(input, last.id)
    ensures FollowAll(base + Ids(front + [last]) + tail, Departures(front + [last], input))
         == FollowAll(base + Ids(front) + ([last.id] + tail), Departures(front, input))
    ensures base + Kept(Ids(front + [last]), Ids(input)) + tail == base + Kept(Ids(front), Ids(input)) + ([last.id] + tail)
  {
    hide FollowAll, Follow, Departures, Kept, Ids;
    DeparturesLast(front, last, input);
    assert [] + Departures(front, input) == Departures(front, input);
    IdsAppend(front, [last]);
    IdsOne(last);
    HasIdIsIn(input, last.id);
    LastKept(Ids(front), last.id, Ids(input));
    assert base + (Ids(front) + [last.id]) + tail == base + Ids(front) + ([last.id] + tail);
  }

  /** Departures: the agent loses exactly the ids the provider loses, whatever stands behind them. */
  lemma {:induction false} DeparturesFollowed(base: seq<string>, cs: seq<Container>, input: seq<Container>, tail: seq<string>)
    requires UniqueIds(cs) && LeavesAlone(base, cs, input)
    ensures FollowAll(base + Ids(cs) + tail, Departures(cs, input)) == base + Kept(Ids(cs), Ids(input)) + tail
    decreases |cs|
  {
    if cs == [] {
      assert base + Ids(cs) + tail == base + [] + tail;
    } else {
      hide Ids, Kept, FollowAll, Departures, HasId;
      var last, front := cs[|cs| - 1], cs[..|cs| - 1];
      assert cs == front + [last];
      if HasId(input, last.id) {
        LastStays(base, front, last, input, tail);
        DeparturesFollowed(base, front, input, [last.id] + tail);
      } else {
        assert last in cs;
        LastDeparts(base, front, last, input, tail);
        DeparturesFollowed(base, front, input, tail);
      }
    }
  }

  lemma {:induction false} KeptAppend(a: seq<string>, b: seq<string>, input: seq<string>)
    ensures Kept(a + b, input) == Kept(a, input) + Kept(b, input)
  {
    if a == [] {
      assert a + b == b;
    } else {
      assert (a + b)[1..] == a[1..] + b;
      KeptAppend(a[1..], b, input);
    }
  }

  lemma LastLeaves(base: seq<string>, front: seq<Container>, last: Container, tail: seq<string>)
    requires UniqueIds(front + [last]) && last.id !in base
    ensures Follow(base + Ids(front + [last]) + tail, Removed(last.id)) == base + Ids(front) + tail
  {
    IdsAppend(front, [last]);
    IdsAt(front);
    var ids := base + Ids(front) + [last.id] + tail;
    assert base + Ids(front + [last]) + tail == ids;
    var i := |base| + |front|;
    assert ids[i] == last.id;
    forall j | 0 <= j < i ensures ids[j] != last.id {
      if j >= |base| {
        assert ids[j] == front[j - |base|].id;
        assert (front + [last])[j - |base|].id != (front + [last])[|front|].id;
      }
    }
    assert IndexOfId(ids, last.id) == i;
    assert ids[..i] == base + Ids(front) && ids[i + 1..] == tail;
  }

  lemma {:induction false} ArrivalsFollowed(base: seq<string>, cs: seq<Container>, input: seq<Container>)
    ensures FollowAll(base + Ids(cs), Arrivals(cs, input)) == base + Ids(AddFresh(cs, input))
    decreases |input|
  {
    if input != [] {
      var c := input[0];
      if HasId(cs, c.id) {
        ArrivalsFollowed(base, cs, input[1..]);
      } else {
        IdsAppend(cs, [c]);
        assert base + Ids(cs) + [c.id] == base + Ids(cs + [c]);
        ArrivalsFollowed(base, cs + [c], input[1..]);
        assert Arrivals(cs, input)[1..] == Arrivals(cs + [c], input[1..]);
      }
    }
  }

  /** The agent's ids are its own ones followed by the provider's, before and after every merge in
    * which no id leaves that is also one of the agent's own. */
  lemma MergeFollowed(base: seq<string>, cs: seq<Container>, input: seq<Container>)
    requires UniqueIds(cs) && LeavesAlone(base, cs, input)
    ensures FollowAll(base + Ids(cs), MergeSignals(cs, input)) == base + Ids(Merge(cs, input))
  {
    var s := Survivors(cs, input);
    assert base + Ids(cs) + [] == base + Ids(cs);
    DeparturesFollowed(base, cs, input, []);
    SurvivorsAreKept(cs, input);
    assert base + Ids(s) + [] == base + Ids(s);
    FollowAppend(base + Ids(cs), Departures(cs, input), Arrivals(s, input));
    ArrivalsFollowed(base, s, input);
  }

  /** Without that condition the agent drops the wrong entry: its own session goes, the provider's
    * container of the same name stays. */
  lemma SharedIdMisleads()
    ensures var base := ["session", "jhbuild"]; var cs := [Container("session", 1)];
      && FollowAll(base + Ids(cs), MergeSignals(cs, [])) == ["jhbuild", "session"]
      && base + Ids(Merge(cs, [])) == ["session", "jhbuild"]
  {
    var base := ["session", "jhbuild"];
    var cs := [Container("session", 1)];
    assert Survivors(cs, []) == [] && Departures(cs[..0], []) == [];
    assert Departures(cs, []) == [Removed("session")];
    assert MergeSignals(cs, []) == [Removed("session")];
    assert Ids(cs) == ["session"];
    assert Follow(["session", "jhbuild", "session"], Removed("session")) == ["jhbuild", "session"];
    assert base + Ids(cs) == ["session", "jhbuild", "session"];
  }
}
