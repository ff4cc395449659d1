/**
 * The three-level dictionary behind the registry, `guild → channel → threshold → users`,
 * stated for any key type: creating missing levels on the way down, and deleting levels
 * that become empty on the way back up.
 */
module Tree {
  import opened Lists

  type Tree<K, U> = map<K, map<K, map<K, seq<U>>>>

  predicate HasPath<K, U>(p: Tree<K, U>, g: K, c: K, n: K) {
    g in p && c in p[g] && n in p[g][c]
  }

  /** The channels level under a guild; empty when the guild is missing. */
  function Channels<K, U>(p: Tree<K, U>, g: K): map<K, map<K, seq<U>>> {
    if g in p then p[g] else map[]
  }

  /** The threshold level under a channel; empty when a level is missing. */
  function Counts<K, U>(p: Tree<K, U>, g: K, c: K): map<K, seq<U>> {
    var cm := Channels(p, g);
    if c in cm then cm[c] else map[]
  }

  /** The user list at one path; empty when a level is missing. */
  function Subscribers<K, U>(p: Tree<K, U>, g: K, c: K, n: K): seq<U> {
    if HasPath(p, g, c, n) then p[g][c][n] else []
  }

  /** No guild, channel or threshold node is left without children. */
  ghost predicate NoEmptyNode<K(!new), U>(p: Tree<K, U>) {
    && (forall g :: g in p ==> p[g] != map[])
    && (forall g, c :: g in p && c in p[g] ==> p[g][c] != map[])
    && (forall g, c, n :: HasPath(p, g, c, n) ==> |p[g][c][n]| > 0)
  }

  /** A user appears at most once per path. */
  ghost predicate UniqueSubscribers<K(!new), U>(p: Tree<K, U>) {
    forall g, c, n :: HasPath(p, g, c, n) ==> NoDup(p[g][c][n])
  }

  // ---------------------------------------------------------------- add

  /** `list.append(u)` guarded by `if u not in list`. */
  function AppendAbsent<U(==)>(us: seq<U>, u: U): (r: seq<U>)
    ensures u in r && forall v :: v in us ==> v in r
    ensures forall v :: v in r ==> v in us || v == u
    ensures NoDup(us) ==> NoDup(r)
  {
    if u in us then us else us + [u]
  }

  /** One channel of the add: missing levels are created, then the user is appended unless already listed. */
  function AddSubscriber<K, U(==)>(p: Tree<K, U>, g: K, c: K, n: K, u: U): (r: Tree<K, U>)
    ensures HasPath(r, g, c, n) && r[g][c][n] == AppendAbsent(Subscribers(p, g, c, n), u)
  {
    p[g := Channels(p, g)[c := Counts(p, g, c)[n := AppendAbsent(Subscribers(p, g, c, n), u)]]]
  }

  /** Every other path keeps its list. */
  lemma AddSubscriberFrame<K, U>(p: Tree<K, U>, g: K, c: K, n: K, u: U, g': K, c': K, n': K)
    requires g' != g || c' != c || n' != n
    ensures Subscribers(AddSubscriber(p, g, c, n, u), g', c', n') == Subscribers(p, g', c', n')
  {
  }

  /** The add only creates keys on its own path and leaves every other subtree as it was. */
  lemma AddSubscriberShape<K, U>(p: Tree<K, U>, g: K, c: K, n: K, u: U)
    ensures var r := AddSubscriber(p, g, c, n, u);
      && r.Keys == p.Keys + {g}
      && r[g].Keys == Channels(p, g).Keys + {c}
      && r[g][c].Keys == Counts(p, g, c).Keys + {n}
      && (forall g' :: g' in p && g' != g ==> r[g'] == p[g'])
      && (forall c' :: c' in Channels(p, g) && c' != c ==> r[g][c'] == p[g][c'])
      && (forall n' :: n' in Counts(p, g, c) && n' != n ==> r[g][c][n'] == p[g][c][n'])
  {
  }

  /** The whole add: the guild level is created first, then every selected channel in turn. */
  function AddToChannels<K, U(==)>(p: Tree<K, U>, g: K, cs: seq<K>, n: K, u: U): (r: Tree<K, U>)
    ensures g in r
  {
    if |cs| == 0 then (if g in p then p else p[g := map[]])
    else AddSubscriber(AddToChannels(p, g, cs[..|cs| - 1], n, u), g, cs[|cs| - 1], n, u)
  }

  /** Adding twice is adding once. */
  lemma AddIdempotent<K, U>(p: Tree<K, U>, g: K, c: K, n: K, u: U)
    ensures AddSubscriber(AddSubscriber(p, g, c, n, u), g, c, n, u) == AddSubscriber(p, g, c, n, u)
  {
    var q := AddSubscriber(p, g, c, n, u);
    assert Counts(q, g, c)[n := q[g][c][n]] == q[g][c];
    assert Channels(q, g)[c := q[g][c]] == q[g];
  }

  /** `k` repetitions of the same add. */
  function AddRepeatedly<K, U(==)>(p: Tree<K, U>, g: K, c: K, n: K, u: U, k: nat): Tree<K, U> {
    if k == 0 then p else AddSubscriber(AddRepeatedly(p, g, c, n, u, k - 1), g, c, n, u)
  }

  /** However often the add is repeated, the registry is the one a single add gives. */
  lemma {:induction false} AddRepeatedlyIsAddOnce<K, U>(p: Tree<K, U>, g: K, c: K, n: K, u: U, k: nat)
    requires k >= 1
    ensures AddRepeatedly(p, g, c, n, u, k) == AddSubscriber(p, g, c, n, u)
  {
    if k > 1 {
      var once := AddSubscriber(p, g, c, n, u);
      var q := AddRepeatedly(p, g, c, n, u, k - 1);
      assert q == once by { AddRepeatedlyIsAddOnce(p, g, c, n, u, k - 1); }
      assert AddSubscriber(once, g, c, n, u) == once by { AddIdempotent(p, g, c, n, u); }
    }
  }

  /** After an add the user is listed exactly once, if they were listed at most once before. */
  lemma AddListsOnce<K, U>(p: Tree<K, U>, g: K, c: K, n: K, u: U)
    requires multiset(Subscribers(p, g, c, n))[u] <= 1
    ensures multiset(Subscribers(AddSubscriber(p, g, c, n, u), g, c, n))[u] == 1
  {
    var us := Subscribers(p, g, c, n);
    if u !in us {
      assert multiset(us + [u]) == multiset(us) + multiset{u};
    }
  }

  lemma AddKeepsNoEmptyNode<K(!new), U>(p: Tree<K, U>, g: K, c: K, n: K, u: U)
    requires NoEmptyNode(p)
    ensures NoEmptyNode(AddSubscriber(p, g, c, n, u))
  {
    var r := AddSubscriber(p, g, c, n, u);
    AddSubscriberShape(p, g, c, n, u);
    forall g', c', n' | HasPath(r, g', c', n') ensures |r[g'][c'][n']| > 0 {
      if g' != g || c' != c || n' != n { AddSubscriberFrame(p, g, c, n, u, g', c', n'); }
    }
  }

  lemma AddKeepsUnique<K(!new), U>(p: Tree<K, U>, g: K, c: K, n: K, u: U)
    requires UniqueSubscribers(p)
    ensures UniqueSubscribers(AddSubscriber(p, g, c, n, u))
  {
    var r := AddSubscriber(p, g, c, n, u);
    forall g', c', n' | HasPath(r, g', c', n') ensures NoDup(r[g'][c'][n']) {
      if g' != g || c' != c || n' != n { AddSubscriberFrame(p, g, c, n, u, g', c', n'); }
    }
  }

  /** Every selected channel's list is its old list with the user appended unless already listed,
      however often the channel occurs in the selection. */
  lemma {:induction false} AddToChannelsSubscribes<K, U>(p: Tree<K, U>, g: K, cs: seq<K>, n: K, u: U, i: nat)
    requires i < |cs|
    ensures Subscribers(AddToChannels(p, g, cs, n, u), g, cs[i], n) == AppendAbsent(Subscribers(p, g, cs[i], n), u)
  {
    var init, last := cs[..|cs| - 1], cs[|cs| - 1];
    var q := AddToChannels(p, g, init, n, u);
    var c := cs[i];
    var j: int := -1;
    if i < |cs| - 1 {
      j := i;
    } else if c in init {
      j :| 0 <= j < |init| && init[j] == c;
    }
    if j >= 0 {
      assert init[j] == c;
      AddToChannelsSubscribes(p, g, init, n, u, j);
      if last != c {
        AddSubscriberFrame(q, g, last, n, u, g, c, n);
      }
    } else {
      AddToChannelsFrame(p, g, init, n, u, g, c, n);
    }
  }

  /** Paths outside the add keep their lists. */
  lemma {:induction false} AddToChannelsFrame<K, U>(p: Tree<K, U>, g: K, cs: seq<K>, n: K, u: U, g': K, c': K, n': K)
    requires g' != g || n' != n || c' !in cs
    ensures Subscribers(AddToChannels(p, g, cs, n, u), g', c', n') == Subscribers(p, g', c', n')
  {
    if |cs| > 0 {
      var init := cs[..|cs| - 1];
      assert cs == init + [cs[|cs| - 1]];
      AddToChannelsFrame(p, g, init, n, u, g', c', n');
      AddSubscriberFrame(AddToChannels(p, g, init, n, u), g, cs[|cs| - 1], n, u, g', c', n');
    }
  }

  // ---------------------------------------------------------------- remove

  /** Removal of one path: `list.remove`, then the emptied threshold, channel and guild levels are deleted in turn. */
  function RemoveSubscriber<K, U(==)>(p: Tree<K, U>, g: K, c: K, n: K, u: U): (r: Tree<K, U>)
    requires HasPath(p, g, c, n) && u in p[g][c][n]
    ensures Subscribers(r, g, c, n) == RemoveFirst(p[g][c][n], u)
  {
    var us := RemoveFirst(p[g][c][n], u);
    if us != [] then p[g := p[g][c := p[g][c][n := us]]]
    else if p[g][c] - {n} != map[] then p[g := p[g][c := p[g][c] - {n}]]
    else if p[g] - {c} != map[] then p[g := p[g] - {c}]
    else p - {g}
  }

  /** Every other path keeps its list. */
  lemma RemoveSubscriberFrame<K, U>(p: Tree<K, U>, g: K, c: K, n: K, u: U, g': K, c': K, n': K)
    requires HasPath(p, g, c, n) && u in p[g][c][n]
    requires g' != g || c' != c || n' != n
    ensures Subscribers(RemoveSubscriber(p, g, c, n, u), g', c', n') == Subscribers(p, g', c', n')
  {
    var r := RemoveSubscriber(p, g, c, n, u);
    if g' == g && c' == c && n' in p[g][c] && RemoveFirst(p[g][c][n], u) == [] {
      assert n' in p[g][c] - {n};
    } else if g' == g && c' in p[g] && c' != c && RemoveFirst(p[g][c][n], u) == [] && p[g][c] - {n} == map[] {
      assert c' in p[g] - {c};
    }
  }

  /** The removal creates nothing, keeps every other subtree, and leaves no empty node on its path. */
  lemma RemoveSubscriberShape<K, U>(p: Tree<K, U>, g: K, c: K, n: K, u: U)
    requires HasPath(p, g, c, n) && u in p[g][c][n]
    ensures var r := RemoveSubscriber(p, g, c, n, u);
      && r.Keys <= p.Keys
      && (forall g' :: g' in r && g' != g ==> r[g'] == p[g'])
      && (g in r ==> r[g] != map[] && r[g].Keys <= p[g].Keys && forall c' :: c' in r[g] && c' != c ==> r[g][c'] == p[g][c'])
      && (g in r && c in r[g] ==> r[g][c] != map[] && r[g][c].Keys <= p[g][c].Keys)
      && (HasPath(r, g, c, n) ==> |r[g][c][n]| > 0)
  {
    var us := RemoveFirst(p[g][c][n], u);
    if us != [] {
      var r := RemoveSubscriber(p, g, c, n, u);
      assert n in r[g][c] && c in r[g];
    } else if p[g][c] - {n} != map[] {
      var r := RemoveSubscriber(p, g, c, n, u);
      assert c in r[g];
    }
  }

  /** Removal keeps the registry free of empty nodes. */
  lemma RemoveKeepsNoEmptyNode<K(!new), U>(p: Tree<K, U>, g: K, c: K, n: K, u: U)
    requires HasPath(p, g, c, n) && u in p[g][c][n]
    requires NoEmptyNode(p)
    ensures NoEmptyNode(RemoveSubscriber(p, g, c, n, u))
  {
    var r := RemoveSubscriber(p, g, c, n, u);
    RemoveSubscriberShape(p, g, c, n, u);
    forall g', c' | g' in r && c' in r[g'] ensures r[g'][c'] != map[] {
      if g' != g || c' != c { assert r[g'][c'] == p[g'][c']; }
    }
    forall g', c', n' | HasPath(r, g', c', n') ensures |r[g'][c'][n']| > 0 {
      if g' != g || c' != c || n' != n { RemoveSubscriberFrame(p, g, c, n, u, g', c', n'); }
    }
  }

  /** Removal keeps every list free of duplicates, and the user is then gone from the removed path. */
  lemma RemoveKeepsUnique<K(!new), U>(p: Tree<K, U>, g: K, c: K, n: K, u: U)
    requires HasPath(p, g, c, n) && u in p[g][c][n]
    requires UniqueSubscribers(p)
    ensures UniqueSubscribers(RemoveSubscriber(p, g, c, n, u))
    ensures u !in Subscribers(RemoveSubscriber(p, g, c, n, u), g, c, n)
  {
    var r := RemoveSubscriber(p, g, c, n, u);
    NoDupRemoveFirst(p[g][c][n], u);
    forall g', c', n' | HasPath(r, g', c', n') ensures NoDup(r[g'][c'][n']) {
      if g' != g || c' != c || n' != n { RemoveSubscriberFrame(p, g, c, n, u, g', c', n'); }
    }
  }

  /** Removing a user who was just added restores the registry exactly. */
  lemma AddThenRemove<K(!new), U>(p: Tree<K, U>, g: K, c: K, n: K, u: U)
    requires NoEmptyNode(p)
    requires u !in Subscribers(p, g, c, n)
    ensures var q := AddSubscriber(p, g, c, n, u);
      u in q[g][c][n] && RemoveSubscriber(q, g, c, n, u) == p
  {
    var us := Subscribers(p, g, c, n);
    RemoveFirstAppended(us, u);
    if HasPath(p, g, c, n) {
      AddThenRemoveListed(p, g, c, n, u);
    } else if g in p && c in p[g] {
      AddThenRemoveNewCount(p, g, c, n, u);
    } else if g in p {
      AddThenRemoveNewChannel(p, g, c, n, u);
    } else {
      AddThenRemoveNewGuild(p, g, c, n, u);
    }
  }

  lemma AddThenRemoveListed<K, U>(p: Tree<K, U>, g: K, c: K, n: K, u: U)
    requires HasPath(p, g, c, n) && |p[g][c][n]| > 0 && u !in p[g][c][n]
    ensures var q := AddSubscriber(p, g, c, n, u);
      u in q[g][c][n] && RemoveSubscriber(q, g, c, n, u) == p
  {
    var us := p[g][c][n];
    var cm := p[g][c][n := us + [u]];
    var gm := p[g][c := cm];
    var q := p[g := gm];
    assert q == AddSubscriber(p, g, c, n, u);
    RemoveFirstAppended(us, u);
    assert RemoveSubscriber(q, g, c, n, u) == q[g := gm[c := cm[n := us]]];
    UpdateRestore(p[g][c], n, us + [u]);
    UpdateRestore(p[g], c, cm);
    UpdateRestore(p, g, gm);
  }

  lemma AddThenRemoveNewCount<K, U>(p: Tree<K, U>, g: K, c: K, n: K, u: U)
    requires g in p && c in p[g] && n !in p[g][c] && p[g][c] != map[]
    ensures var q := AddSubscriber(p, g, c, n, u);
      u in q[g][c][n] && RemoveSubscriber(q, g, c, n, u) == p
  {
    var cm := p[g][c][n := [u]];
    var gm := p[g][c := cm];
    var q := p[g := gm];
    assert AppendAbsent(Subscribers(p, g, c, n), u) == [u];
    assert q == AddSubscriber(p, g, c, n, u);
    assert RemoveFirst([u], u) == [];
    UpdateRemove(p[g][c], n, [u]);
    assert RemoveSubscriber(q, g, c, n, u) == q[g := gm[c := p[g][c]]];
    UpdateRestore(p[g], c, cm);
    UpdateRestore(p, g, gm);
  }

  lemma AddThenRemoveNewChannel<K, U>(p: Tree<K, U>, g: K, c: K, n: K, u: U)
    requires g in p && c !in p[g] && p[g] != map[]
    ensures var q := AddSubscriber(p, g, c, n, u);
      u in q[g][c][n] && RemoveSubscriber(q, g, c, n, u) == p
  {
    var cm: map<K, seq<U>> := map[n := [u]];
    var gm := p[g][c := cm];
    var q := p[g := gm];
    assert AppendAbsent(Subscribers(p, g, c, n), u) == [u];
    assert q == AddSubscriber(p, g, c, n, u);
    assert RemoveFirst([u], u) == [];
    assert cm - {n} == map[];
    UpdateRemove(p[g], c, cm);
    assert RemoveSubscriber(q, g, c, n, u) == q[g := p[g]];
    UpdateRestore(p, g, gm);
  }

  lemma AddThenRemoveNewGuild<K, U>(p: Tree<K, U>, g: K, c: K, n: K, u: U)
    requires g !in p
    ensures var q := AddSubscriber(p, g, c, n, u);
      u in q[g][c][n] && RemoveSubscriber(q, g, c, n, u) == p
  {
    var cm: map<K, seq<U>> := map[n := [u]];
    var gm: map<K, map<K, seq<U>>> := map[c := cm];
    var q := p[g := gm];
    assert AppendAbsent(Subscribers(p, g, c, n), u) == [u];
    assert q == AddSubscriber(p, g, c, n, u);
    assert RemoveFirst([u], u) == [];
    assert cm - {n} == map[];
    assert gm - {c} == map[];
    UpdateRemove(p, g, gm);
  }

  /** Overwriting a key and then writing its old value back restores the map. */
  lemma UpdateRestore<K, V>(m: map<K, V>, k: K, v: V)
    requires k in m
    ensures m[k := v][k := m[k]] == m
  {
  }

  /** Adding a fresh key and then deleting it restores the map. */
  lemma UpdateRemove<K, V>(m: map<K, V>, k: K, v: V)
    requires k !in m
    ensures m[k := v] - {k} == m
  {
  }

  /** Creating the guild level first does not change what one add produces. */
  lemma AddAfterEmptyGuild<K, U>(p: Tree<K, U>, g: K, c: K, n: K, u: U)
    requires g !in p
    ensures AddSubscriber(p[g := map[]], g, c, n, u) == AddSubscriber(p, g, c, n, u)
  {
    var q := p[g := map[]];
    assert Channels(q, g) == Channels(p, g);
    assert Subscribers(q, g, c, n) == Subscribers(p, g, c, n);
    UpdateTwice(p, g, map[], Channels(p, g)[c := Counts(p, g, c)[n := AppendAbsent(Subscribers(p, g, c, n), u)]]);
  }

  /** A non-empty add keeps both structural invariants. */
  lemma {:induction false} AddToChannelsKeepsInvariants<K(!new), U>(p: Tree<K, U>, g: K, cs: seq<K>, n: K, u: U)
    requires |cs| > 0 && NoEmptyNode(p) && UniqueSubscribers(p)
    ensures var r := AddToChannels(p, g, cs, n, u);
      NoEmptyNode(r) && UniqueSubscribers(r)
  {
    var init := cs[..|cs| - 1];
    var c := cs[|cs| - 1];
    var q := AddToChannels(p, g, init, n, u);
    if |init| == 0 {
      assert AddSubscriber(q, g, c, n, u) == AddSubscriber(p, g, c, n, u) by {
        if g !in p { AddAfterEmptyGuild(p, g, c, n, u); }
      }
      AddKeepsNoEmptyNode(p, g, c, n, u);
      AddKeepsUnique(p, g, c, n, u);
    } else {
      AddToChannelsKeepsInvariants(p, g, init, n, u);
      AddKeepsNoEmptyNode(q, g, c, n, u);
      AddKeepsUnique(q, g, c, n, u);
    }
  }

  /** The cascade as the callback writes it, one mutation at a time, is the removal. */
  lemma RemoveStepwise<K, U>(p: Tree<K, U>, g: K, c: K, n: K, u: U)
    requires HasPath(p, g, c, n) && u in p[g][c][n]
    ensures
      var p1 := p[g := p[g][c := p[g][c][n := RemoveFirst(p[g][c][n], u)]]];
      var p2 := if |p1[g][c][n]| == 0 then p1[g := p1[g][c := p1[g][c] - {n}]] else p1;
      var p3 := if p2[g][c] == map[] then p2[g := p2[g] - {c}] else p2;
      var p4 := if p3[g] == map[] then p3 - {g} else p3;
      p4 == RemoveSubscriber(p, g, c, n, u)
  {
    var us := RemoveFirst(p[g][c][n], u);
    var cm1 := p[g][c][n := us];
    var gm1 := p[g][c := cm1];
    var p1 := p[g := gm1];
    if us == [] {
      var cm2 := cm1 - {n};
      assert cm2 == p[g][c] - {n};
      var gm2 := gm1[c := cm2];
      var p2 := p1[g := gm2];
      UpdateTwice(p[g], c, cm1, cm2);
      UpdateTwice(p, g, gm1, gm2);
      assert p2 == p[g := p[g][c := p[g][c] - {n}]];
      if cm2 == map[] {
        var gm3 := gm2 - {c};
        assert gm3 == p[g] - {c};
        var p3 := p2[g := gm3];
        UpdateTwice(p, g, gm2, gm3);
        if gm3 == map[] {
          assert p3 - {g} == p - {g};
        }
      } else {
        assert c in gm2;
      }
    } else {
      assert n in cm1 && c in gm1;
    }
  }

  /** A second write to the same key overrides the first. */
  lemma UpdateTwice<K, V>(m: map<K, V>, k: K, v: V, w: V)
    ensures m[k := v][k := w] == m[k := w]
  {
  }

  /** The channel loop's body as the handler writes it, for a guild that is already present, is one add. */
  lemma AddStepwise<K, U>(p: Tree<K, U>, g: K, c: K, n: K, u: U)
    requires g in p
    ensures
      var cm := p[g];
      var nm := if c in cm then cm[c] else map[];
      var us := if n in nm then nm[n] else [];
      var us' := if u !in us then us + [u] else us;
      p[g := cm[c := nm[n := us']]] == AddSubscriber(p, g, c, n, u)
  {
  }
}
