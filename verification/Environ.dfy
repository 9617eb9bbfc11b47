/** An environment as an array of `KEY=value` strings, and the finite map it stands for. */
module Environ {
  import opened Common

  /** strchr (entry, '='), as an index; |entry| when there is none. */
  function EqualsAt(entry: string): (i: nat)
    ensures i <= |entry|
    ensures i < |entry| ==> entry[i] == '='
    ensures forall j :: 0 <= j < i ==> entry[j] != '='
  {
    if entry == "" || entry[0] == '=' then 0 else 1 + EqualsAt(entry[1..])
  }

  predicate HasKey(entry: string) { EqualsAt(entry) < |entry| }

  function KeyOf(entry: string): string { entry[..EqualsAt(entry)] }

  function ValueOf(entry: string): string
    requires HasKey(entry)
  {
    entry[EqualsAt(entry) + 1..]
  }

  function Entry(key: string, value: string): string { key + "=" + value }

  /** strncmp (key, entry, strlen (key)) == 0 && entry[strlen (key)] == '=' */
  predicate Matches(key: string, entry: string) {
    |key| < |entry| && entry[..|key|] == key && entry[|key|] == '='
  }

  ghost predicate IsKey(key: string) { '=' !in key }

  /** The map an environment array denotes to getenv: the first entry for a key counts. */
  function MapOf(env: seq<string>): map<string, string> {
    if env == [] then map[]
    else if HasKey(env[0]) then MapOf(env[1..])[KeyOf(env[0]) := ValueOf(env[0])]
    else MapOf(env[1..])
  }

  ghost predicate UniqueKeys(env: seq<string>) {
    forall i, j :: 0 <= i < j < |env| && HasKey(env[i]) && HasKey(env[j]) ==> KeyOf(env[i]) != KeyOf(env[j])
  }

  // ---------- the operations, on values ----------

  /** The first entry for a key, or |env|. */
  function Find(env: seq<string>, key: string): (i: nat)
    ensures i <= |env|
    ensures i < |env| ==> Matches(key, env[i])
    ensures forall j :: 0 <= j < i ==> !Matches(key, env[j])
  {
    if env == [] || Matches(key, env[0]) then 0 else 1 + Find(env[1..], key)
  }

  /** g_array_remove_index_fast: the last element fills the gap. */
  function RemoveFast(env: seq<string>, i: nat): seq<string>
    requires i < |env|
  {
    env[i := env[|env| - 1]][..|env| - 1]
  }

  function GetEnv(env: seq<string>, key: string): Option<string> {
    var i := Find(env, key);
    if i < |env| then Some(env[i][|key| + 1..]) else None
  }

  function SetEnv(env: seq<string>, key: string, value: string): seq<string> {
    var i := Find(env, key);
    var longer := env + [Entry(key, value)];
    if i < |env| then RemoveFast(longer, i) else longer
  }

  function UnsetEnv(env: seq<string>, key: string): seq<string> {
    var i := Find(env, key);
    if i < |env| then RemoveFast(env, i) else env
  }

  function AddPair(env: seq<string>, pair: string): seq<string> {
    if !HasKey(pair) then env
    else
      var j := Find(env, KeyOf(pair));
      if j < |env| then env[j := pair] else env + [pair]
  }

  function AddEnviron(env: seq<string>, pairs: seq<string>): seq<string>
    decreases |pairs|
  {
    if pairs == [] then env else AddEnviron(AddPair(env, pairs[0]), pairs[1..])
  }

  // ---------- entries ----------

  lemma EntryParts(key: string, value: string)
    requires IsKey(key)
    ensures HasKey(Entry(key, value)) && KeyOf(Entry(key, value)) == key && ValueOf(Entry(key, value)) == value
  {
    var e := Entry(key, value);
    assert e[|key|] == '=';
    assert forall j :: 0 <= j < |key| ==> e[j] == key[j];
    assert EqualsAt(e) == |key|;
  }

  lemma EntryWhole(entry: string)
    ensures HasKey(entry) ==> IsKey(KeyOf(entry)) && Entry(KeyOf(entry), ValueOf(entry)) == entry
  {}

  /** For a key without '=' the C comparison finds exactly the entries of that key. */
  lemma MatchesIsKey(key: string, entry: string)
    requires IsKey(key)
    ensures Matches(key, entry) <==> HasKey(entry) && KeyOf(entry) == key
    ensures Matches(key, entry) ==> entry[|key| + 1..] == ValueOf(entry)
  {
    if Matches(key, entry) {
      assert forall j :: 0 <= j < |key| ==> entry[j] == entry[..|key|][j];
      assert EqualsAt(entry) == |key|;
    }
  }

  // ---------- the array refines the map ----------

  /** getenv is lookup. */
  lemma {:induction false} GetIsLookup(env: seq<string>, key: string)
    requires IsKey(key)
    ensures GetEnv(env, key) == if key in MapOf(env) then Some(MapOf(env)[key]) else None
    ensures key in MapOf(env) <==> Find(env, key) < |env|
  {
    if env != [] {
      MatchesIsKey(key, env[0]);
      if !Matches(key, env[0]) { GetIsLookup(env[1..], key); }
    }
  }

  lemma {:induction false} MapOfReplace(env: seq<string>, i: nat, entry: string)
    requires HasKey(entry) && i == Find(env, KeyOf(entry)) && i < |env|
    ensures MapOf(env[i := entry]) == MapOf(env)[KeyOf(entry) := ValueOf(entry)]
  {
    MatchesIsKey(KeyOf(entry), env[0]);
    if i == 0 {
      assert env[i := entry][1..] == env[1..];
    } else {
      assert env[i := entry][1..] == env[1..][i - 1 := entry];
      MapOfReplace(env[1..], i - 1, entry);
    }
  }

  lemma {:induction false} MapOfAppend(env: seq<string>, entry: string)
    requires HasKey(entry) && KeyOf(entry) !in MapOf(env)
    ensures MapOf(env + [entry]) == MapOf(env)[KeyOf(entry) := ValueOf(entry)]
  {
    if env != [] {
      assert (env + [entry])[1..] == env[1..] + [entry];
      MapOfAppend(env[1..], entry);
    } else {
      assert (env + [entry])[1..] == [];
    }
  }

  /** Overwriting the entry of a key, or appending one, is an update of the map. */
  lemma AddPairIsUpdate(env: seq<string>, pair: string)
    requires HasKey(pair)
    ensures MapOf(AddPair(env, pair)) == MapOf(env)[KeyOf(pair) := ValueOf(pair)]
  {
    GetIsLookup(env, KeyOf(pair));
    if Find(env, KeyOf(pair)) < |env| {
      MapOfReplace(env, Find(env, KeyOf(pair)), pair);
    } else {
      MapOfAppend(env, pair);
    }
  }

  /** setenv appends and then removes fast; on an existing key that amounts to replacing in place. */
  lemma SetIsAdd(env: seq<string>, key: string, value: string)
    requires IsKey(key)
    ensures SetEnv(env, key, value) == AddPair(env, Entry(key, value))
  {
    EntryParts(key, value);
    var e := Entry(key, value);
    var i := Find(env, key);
    if i < |env| { assert RemoveFast(env + [e], i) == env[i := e]; }
  }

  /** setenv is update, and every other entry stays where it is. */
  lemma SetIsUpdate(env: seq<string>, key: string, value: string)
    requires IsKey(key)
    ensures MapOf(SetEnv(env, key, value)) == MapOf(env)[key := value]
    ensures forall i :: 0 <= i < |env| && i != Find(env, key) ==>
      i < |SetEnv(env, key, value)| && SetEnv(env, key, value)[i] == env[i]
  {
    SetIsAdd(env, key, value);
    EntryParts(key, value);
    AddPairIsUpdate(env, Entry(key, value));
  }

  lemma {:induction false} MapHasOnlyKeys(env: seq<string>, key: string)
    requires key in MapOf(env)
    ensures IsKey(key)
  {
    if HasKey(env[0]) && key == KeyOf(env[0]) { EntryWhole(env[0]); } else { MapHasOnlyKeys(env[1..], key); }
  }

  /** A key containing '=' is never set: setenv is an update exactly for keys without one. */
  lemma SetIsUpdateIffKey(env: seq<string>, key: string, value: string)
    ensures MapOf(SetEnv(env, key, value)) == MapOf(env)[key := value] <==> IsKey(key)
  {
    if IsKey(key) {
      SetIsUpdate(env, key, value);
    } else if key in MapOf(SetEnv(env, key, value)) {
      MapHasOnlyKeys(SetEnv(env, key, value), key);
    }
  }

  /** add_environ overlays its pairs in order; those without '=' are skipped. */
  function Overlay(m: map<string, string>, pairs: seq<string>): map<string, string>
    decreases |pairs|
  {
    if pairs == [] then m
    else Overlay(if HasKey(pairs[0]) then m[KeyOf(pairs[0]) := ValueOf(pairs[0])] else m, pairs[1..])
  }

  lemma {:induction false} AddIsOverlay(env: seq<string>, pairs: seq<string>)
    ensures MapOf(AddEnviron(env, pairs)) == Overlay(MapOf(env), pairs)
    decreases |pairs|
  {
    if pairs != [] {
      if HasKey(pairs[0]) { AddPairIsUpdate(env, pairs[0]); }
      AddIsOverlay(AddPair(env, pairs[0]), pairs[1..]);
    }
  }

  /** Overlaying unique keys is the union of maps, the overlay winning. */
  lemma {:induction false} OverlayIsUnion(m: map<string, string>, pairs: seq<string>)
    requires UniqueKeys(pairs)
    ensures Overlay(m, pairs) == m + MapOf(pairs)
    decreases |pairs|
  {
    if pairs != [] {
      UniqueTail(pairs);
      var m' := if HasKey(pairs[0]) then m[KeyOf(pairs[0]) := ValueOf(pairs[0])] else m;
      OverlayIsUnion(m', pairs[1..]);
    }
  }

  lemma {:induction false} InMap(env: seq<string>, key: string)
    ensures key in MapOf(env) <==> exists i :: 0 <= i < |env| && HasKey(env[i]) && KeyOf(env[i]) == key
  {
    if env != [] {
      InMap(env[1..], key);
      if i :| 0 <= i < |env| && HasKey(env[i]) && KeyOf(env[i]) == key {
        if i > 0 { assert env[1..][i - 1] == env[i]; }
      }
      if i :| 0 <= i < |env[1..]| && HasKey(env[1..][i]) && KeyOf(env[1..][i]) == key {
        assert env[i + 1] == env[1..][i];
      }
    }
  }

  lemma UniqueTail(env: seq<string>)
    requires UniqueKeys(env) && env != []
    ensures UniqueKeys(env[1..])
    ensures HasKey(env[0]) ==> KeyOf(env[0]) !in MapOf(env[1..])
  {
    InMap(env[1..], KeyOf(env[0]));
    assert forall i :: 0 <= i < |env[1..]| ==> env[1..][i] == env[i + 1];
  }

  // ---------- key uniqueness ----------

  lemma AddPairKeepsUnique(env: seq<string>, pair: string)
    requires UniqueKeys(env)
    ensures UniqueKeys(AddPair(env, pair))
  {
    if HasKey(pair) {
      forall j | 0 <= j < |env| ensures Matches(KeyOf(pair), env[j]) <==> HasKey(env[j]) && KeyOf(env[j]) == KeyOf(pair) {
        MatchesIsKey(KeyOf(pair), env[j]);
      }
    }
  }

  lemma SetKeepsUnique(env: seq<string>, key: string, value: string)
    requires UniqueKeys(env) && IsKey(key)
    ensures UniqueKeys(SetEnv(env, key, value))
  {
    SetIsAdd(env, key, value);
    AddPairKeepsUnique(env, Entry(key, value));
  }

  lemma {:induction false} AddKeepsUnique(env: seq<string>, pairs: seq<string>)
    requires UniqueKeys(env)
    ensures UniqueKeys(AddEnviron(env, pairs))
    decreases |pairs|
  {
    if pairs != [] {
      AddPairKeepsUnique(env, pairs[0]);
      AddKeepsUnique(AddPair(env, pairs[0]), pairs[1..]);
    }
  }

  /** With unique keys a map lookup is decided by any entry of the key. */
  lemma {:induction false} MapOfAt(env: seq<string>, i: nat)
    requires UniqueKeys(env) && i < |env| && HasKey(env[i])
    ensures KeyOf(env[i]) in MapOf(env) && MapOf(env)[KeyOf(env[i])] == ValueOf(env[i])
  {
    if i > 0 {
      UniqueTail(env);
      assert env[i] == env[1..][i - 1];
      MapOfAt(env[1..], i - 1);
    }
  }

  /** Arrays with unique keys and the same entries, in any order, denote the same map. */
  lemma SameEntriesSameMap(a: seq<string>, b: seq<string>)
    requires UniqueKeys(a) && UniqueKeys(b)
    requires forall e :: e in a && HasKey(e) <==> e in b && HasKey(e)
    ensures MapOf(a) == MapOf(b)
  {
    forall key | key in MapOf(a) ensures key in MapOf(b) && MapOf(b)[key] == MapOf(a)[key] { KeyCarries(a, b, key); }
    forall key | key in MapOf(b) ensures key in MapOf(a) { KeyCarries(b, a, key); }
  }

  lemma KeyCarries(a: seq<string>, b: seq<string>, key: string)
    requires UniqueKeys(a) && UniqueKeys(b) && key in MapOf(a)
    requires forall e :: e in a && HasKey(e) ==> e in b
    ensures key in MapOf(b) && MapOf(b)[key] == MapOf(a)[key]
  {
    InMap(a, key);
    var i :| 0 <= i < |a| && HasKey(a[i]) && KeyOf(a[i]) == key;
    assert a[i] in b;
    var j :| 0 <= j < |b| && b[j] == a[i];
    MapOfAt(a, i);
    MapOfAt(b, j);
  }

  lemma RemoveFastEntries(env: seq<string>, i: nat)
    requires i < |env|
    ensures forall k :: 0 <= k < |env| && k != i ==> env[k] in RemoveFast(env, i)
    ensures forall k :: 0 <= k < |RemoveFast(env, i)| ==>
      RemoveFast(env, i)[k] == env[if k == i then |env| - 1 else k]
  {
    var r := RemoveFast(env, i);
    forall k | 0 <= k < |env| && k != i ensures env[k] in r {
      assert r[if k == |env| - 1 then i else k] == env[k];
    }
  }

  lemma RemoveFastUnique(env: seq<string>, i: nat)
    requires UniqueKeys(env) && i < |env|
    ensures UniqueKeys(RemoveFast(env, i))
  {
    RemoveFastEntries(env, i);
    var r := RemoveFast(env, i);
    forall p, q | 0 <= p < q < |r| && HasKey(r[p]) && HasKey(r[q]) ensures KeyOf(r[p]) != KeyOf(r[q]) {
      var p', q' := if p == i then |env| - 1 else p, if q == i then |env| - 1 else q;
      assert r[p] == env[p'] && r[q] == env[q'] && p' != q';
    }
  }

  lemma RemoveFastMap(env: seq<string>, i: nat, k: string)
    requires UniqueKeys(env) && i < |env| && HasKey(env[i])
    ensures k in MapOf(RemoveFast(env, i)) <==> k in MapOf(env) && k != KeyOf(env[i])
  {
    var r := RemoveFast(env, i);
    RemoveFastEntries(env, i);
    InMap(env, k);
    InMap(r, k);
    if k in MapOf(r) {
      var p :| 0 <= p < |r| && HasKey(r[p]) && KeyOf(r[p]) == k;
      var p' := if p == i then |env| - 1 else p;
      assert r[p] == env[p'] && p' != i;
    }
    if k in MapOf(env) && k != KeyOf(env[i]) {
      var j :| 0 <= j < |env| && HasKey(env[j]) && KeyOf(env[j]) == k;
      assert env[j] in r;
    }
  }

  /** unsetenv is deletion, although the order of the array changes. */
  lemma UnsetIsDelete(env: seq<string>, key: string)
    requires UniqueKeys(env) && IsKey(key)
    ensures UniqueKeys(UnsetEnv(env, key)) && MapOf(UnsetEnv(env, key)) == MapOf(env) - {key}
  {
    GetIsLookup(env, key);
    var i := Find(env, key);
    if i < |env| {
      var r := RemoveFast(env, i);
      MatchesIsKey(key, env[i]);
      RemoveFastUnique(env, i);
      RemoveFastEntries(env, i);
      forall k ensures k in MapOf(r) <==> k in MapOf(env) && k != key { RemoveFastMap(env, i, k); }
      forall k | k in MapOf(r) ensures MapOf(r)[k] == MapOf(env)[k] { KeyCarries(r, env, k); }
    }
  }

  // ---------- sorting ----------

  /** strcmp (a, b) <= 0 */
  predicate AtMost(a: string, b: string) {
    a == "" || (b != "" && (a[0] < b[0] || (a[0] == b[0] && AtMost(a[1..], b[1..]))))
  }

  function Insert(x: string, s: seq<string>): seq<string> {
    if s == [] || AtMost(x, s[0]) then [x] + s else [s[0]] + Insert(x, s[1..])
  }

  function Sorted(s: seq<string>): seq<string> {
    if s == [] then [] else Insert(s[0], Sorted(s[1..]))
  }

  lemma {:induction false} InsertEntries(x: string, s: seq<string>)
    ensures multiset(Insert(x, s)) == multiset([x] + s)
  {
    if s != [] && !AtMost(x, s[0]) {
      InsertEntries(x, s[1..]);
      assert s == [s[0]] + s[1..];
      assert multiset([x] + s) == multiset([s[0]]) + multiset([x] + s[1..]);
    }
  }

  lemma {:induction false} SortedEntries(s: seq<string>)
    ensures multiset(Sorted(s)) == multiset(s)
  {
    if s != [] {
      SortedEntries(s[1..]);
      InsertEntries(s[0], Sorted(s[1..]));
      assert s == [s[0]] + s[1..];
    }
  }

  /** The order of strcmp, without recursion: a prefix comes first, and otherwise the first character
    * that differs decides. */
  ghost predicate NotAfter(a: string, b: string) {
    a <= b || exists k :: 0 <= k < |a| && k < |b| && a[..k] == b[..k] && a[k] < b[k]
  }

  lemma {:induction false} AtMostIsOrder(a: string, b: string)
    ensures AtMost(a, b) <==> NotAfter(a, b)
  {
    if a != "" && b != "" && a[0] == b[0] {
      AtMostIsOrder(a[1..], b[1..]);
      assert a == [a[0]] + a[1..] && b == [b[0]] + b[1..];
      if k :| 0 <= k < |a[1..]| && k < |b[1..]| && a[1..][..k] == b[1..][..k] && a[1..][k] < b[1..][k] {
        assert a[..k + 1] == [a[0]] + a[1..][..k] && b[..k + 1] == [b[0]] + b[1..][..k];
        assert a[..k + 1] == b[..k + 1] && a[k + 1] < b[k + 1];
      }
      if k :| 0 <= k < |a| && k < |b| && a[..k] == b[..k] && a[k] < b[k] {
        assert a[1..][..k - 1] == a[..k][1..] && b[1..][..k - 1] == b[..k][1..];
        assert a[1..][k - 1] < b[1..][k - 1];
      }
    } else if a != "" && b != "" {
      assert a[..0] == b[..0];
      forall k | 0 < k < |a| && k < |b| ensures a[..k] != b[..k] {
        assert a[..k][0] == a[0] && b[..k][0] == b[0];
      }
    }
  }

  lemma {:induction false} AtMostTotal(a: string, b: string)
    ensures AtMost(a, b) || AtMost(b, a)
  {
    if a != "" && b != "" { AtMostTotal(a[1..], b[1..]); }
  }

  lemma {:induction false} AtMostChains(a: string, b: string, c: string)
    requires AtMost(a, b) && AtMost(b, c)
    ensures AtMost(a, c)
  {
    if a != "" && a[0] == b[0] == c[0] { AtMostChains(a[1..], b[1..], c[1..]); }
  }

  ghost predicate Ordered(s: seq<string>) { forall i, j :: 0 <= i < j < |s| ==> AtMost(s[i], s[j]) }

  lemma {:induction false} InsertOrders(x: string, s: seq<string>)
    requires Ordered(s)
    ensures Ordered(Insert(x, s))
  {
    if s != [] && !AtMost(x, s[0]) {
      AtMostTotal(x, s[0]);
      InsertOrders(x, s[1..]);
      InsertEntries(x, s[1..]);
      var rest := Insert(x, s[1..]);
      forall j | 0 <= j < |rest| ensures AtMost(s[0], rest[j]) {
        assert rest[j] in multiset(rest);
        if rest[j] != x {
          assert rest[j] in s[1..];
          var k :| 0 <= k < |s[1..]| && s[1..][k] == rest[j];
          assert s[k + 1] == rest[j];
        }
      }
    } else if s != [] {
      forall j | 0 <= j < |s| ensures AtMost(x, s[j]) {
        if j > 0 { AtMostChains(x, s[0], s[j]); }
      }
    }
  }

  lemma {:induction false} SortedOrders(s: seq<string>)
    ensures Ordered(Sorted(s))
  {
    if s != [] {
      SortedOrders(s[1..]);
      InsertOrders(s[0], Sorted(s[1..]));
    }
  }

  /** Sorting rearranges the entries and puts them in the order of strcmp. */
  lemma SortedInOrder(s: seq<string>)
    ensures multiset(Sorted(s)) == multiset(s)
    ensures forall i, j :: 0 <= i < j < |Sorted(s)| ==> NotAfter(Sorted(s)[i], Sorted(s)[j])
  {
    SortedEntries(s);
    SortedOrders(s);
    forall i, j | 0 <= i < j < |Sorted(s)| ensures NotAfter(Sorted(s)[i], Sorted(s)[j]) {
      AtMostIsOrder(Sorted(s)[i], Sorted(s)[j]);
    }
  }

  lemma SameMultisetUnique(a: seq<string>, b: seq<string>)
    requires UniqueKeys(a) && multiset(a) == multiset(b)
    ensures UniqueKeys(b)
  {
    forall i, j | 0 <= i < j < |b| && HasKey(b[i]) && HasKey(b[j]) ensures KeyOf(b[i]) != KeyOf(b[j]) {
      if b[i] == b[j] {
        TwiceIn(b, i, j);
        var p, q := TwoPlaces(a, b[i]);
      } else {
        assert b[i] in multiset(a) && b[j] in multiset(a);
        var p :| 0 <= p < |a| && a[p] == b[i];
        var q :| 0 <= q < |a| && a[q] == b[j];
        if p < q { assert KeyOf(a[p]) != KeyOf(a[q]); } else { assert KeyOf(a[q]) != KeyOf(a[p]); }
      }
    }
  }

  lemma TwiceIn(b: seq<string>, i: nat, j: nat)
    requires i < j < |b| && b[i] == b[j]
    ensures multiset(b)[b[i]] >= 2
  {
    assert b == b[..i] + [b[i]] + b[i + 1..j] + [b[j]] + b[j + 1..];
  }

  lemma {:induction false} TwoPlaces(a: seq<string>, e: string) returns (p: nat, q: nat)
    requires multiset(a)[e] >= 2
    ensures p < q < |a| && a[p] == a[q] == e
  {
    assert a == [a[0]] + a[1..];
    if a[0] == e {
      assert multiset(a[1..])[e] >= 1;
      assert e in a[1..];
      var k :| 0 <= k < |a[1..]| && a[1..][k] == e;
      p, q := 0, k + 1;
    } else {
      assert multiset(a[1..])[e] >= 2;
      p, q := TwoPlaces(a[1..], e);
      p, q := p + 1, q + 1;
    }
  }

  /** Sorting an environment with unique keys changes neither its meaning nor their uniqueness. */
  lemma SortingKeepsMeaning(env: seq<string>)
    requires UniqueKeys(env)
    ensures UniqueKeys(Sorted(env)) && MapOf(Sorted(env)) == MapOf(env)
    ensures forall e :: e in Sorted(env) <==> e in env
    ensures |Sorted(env)| == |env|
  {
    SortedEntries(env);
    SameMultisetUnique(env, Sorted(env));
    forall e ensures e in Sorted(env) <==> e in env {
      assert e in Sorted(env) <==> e in multiset(Sorted(env));
      assert e in env <==> e in multiset(env);
    }
    assert |multiset(Sorted(env))| == |multiset(env)|;
    SameEntriesSameMap(env, Sorted(env));
  }
}
