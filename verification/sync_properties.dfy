/**
  Properties of a whole reconciliation pass: what the submitted definition
  contains does not depend on the order in which the resource maps were
  enumerated, and which resources are deleted or applied.
 */
module SyncProperties {
  import opened Cluster
  import opened Sync

  /** A key listed without repetition occurs exactly once. */
  lemma {:induction false} DistinctMultiplicity(ks: seq<string>, k: string)
    requires Distinct(ks)
    ensures multiset(ks)[k] == if k in ks then 1 else 0
  {
    if ks != [] {
      var rest := ks[1..];
      assert ks == [ks[0]] + rest;
      assert Distinct(rest);
      DistinctMultiplicity(rest, k);
      assert ks[0] !in rest;
    }
  }

  /** A key list without repetition is as long as the set of its keys. */
  lemma {:induction false} DistinctCardinality(ks: seq<string>)
    requires Distinct(ks)
    ensures |Elems(ks)| == |ks|
  {
    if ks != [] {
      var rest := ks[1..];
      assert Distinct(rest);
      DistinctCardinality(rest);
      assert ks[0] !in rest;
      assert Elems(ks) == Elems(rest) + {ks[0]};
    }
  }

  lemma ActionsSplit(p: Phase, a: seq<string>, b: seq<string>, m: map<string, Resource>)
    requires KeysIn(a, m) && KeysIn(b, m)
    ensures KeysIn(a + b, m)
    ensures Actions(p, a + b, m) == Actions(p, a, m) + Actions(p, b, m)
  {
  }

  /** Removing the key at position `i` removes one copy of it. */
  lemma KeysRemoveAt(b: seq<string>, i: nat)
    requires i < |b|
    ensures b == b[..i] + [b[i]] + b[i+1..]
    ensures multiset(b[..i] + b[i+1..]) == multiset(b) - multiset{b[i]}
  {
  }

  /** Removing the key at position `i` removes one copy of its action. */
  lemma ActionsRemoveAt(p: Phase, b: seq<string>, i: nat, m: map<string, Resource>)
    requires KeysIn(b, m) && i < |b|
    ensures KeysIn(b[..i] + b[i+1..], m)
    ensures multiset(Actions(p, b, m)) ==
              multiset(Actions(p, b[..i] + b[i+1..], m)) + multiset{ActionFor(p, m[b[i]])}
  {
    var pre, post := b[..i], b[i+1..];
    KeysRemoveAt(b, i);
    assert KeysIn(pre, m) && KeysIn(post, m);
    var x := Actions(p, [b[i]], m);
    assert x == [ActionFor(p, m[b[i]])];
    ActionsSplit(p, pre, [b[i]], m);
    ActionsSplit(p, pre + [b[i]], post, m);
    ActionsSplit(p, pre, post, m);
    assert Actions(p, b, m) == Actions(p, pre, m) + x + Actions(p, post, m);
  }

  /** Permuting the keys permutes the actions. */
  lemma {:induction false} ActionsPermute(p: Phase, a: seq<string>, b: seq<string>, m: map<string, Resource>)
    requires KeysIn(a, m) && multiset(a) == multiset(b)
    ensures KeysIn(b, m)
    ensures multiset(Actions(p, a, m)) == multiset(Actions(p, b, m))
    decreases |a|
  {
    assert forall k | k in b :: k in multiset(b);
    if a == [] {
      assert b == [];
    } else {
      var x := a[0];
      assert x in multiset(b);
      var i :| 0 <= i < |b| && b[i] == x;
      ActionsRemoveAt(p, b, i, m);
      ActionsRemoveAt(p, a, 0, m);
      KeysRemoveAt(a, 0);
      KeysRemoveAt(b, i);
      assert a[..0] + a[1..] == a[1..];
      ActionsPermute(p, a[1..], b[..i] + b[i+1..], m);
    }
  }

  /**
    Go enumerates maps in an unspecified order. Any two enumerations of the same
    set of ids (each id once) give the same multiset of actions.
   */
  lemma EnumerationOrderIrrelevant(p: Phase, a: seq<string>, b: seq<string>, m: map<string, Resource>)
    requires Distinct(a) && Distinct(b) && Elems(a) == Elems(b) && KeysIn(a, m) && KeysIn(b, m)
    ensures multiset(Actions(p, a, m)) == multiset(Actions(p, b, m))
  {
    forall k ensures multiset(a)[k] == multiset(b)[k] {
      DistinctMultiplicity(a, k);
      DistinctMultiplicity(b, k);
      assert k in a <==> k in Elems(a);
      assert k in b <==> k in Elems(b);
    }
    assert multiset(a) == multiset(b);
    ActionsPermute(p, a, b, m);
  }

  /**
    The actions for an enumeration of a set of ids: one per id, each naming
    the resource stored under its id, and nothing else.
   */
  lemma ActionsOfKeys(p: Phase, ks: seq<string>, m: map<string, Resource>)
    requires Distinct(ks) && KeysIn(ks, m)
    ensures |Actions(p, ks, m)| == |Elems(ks)|
    ensures forall k | k in Elems(ks) :: ActionFor(p, m[k]) in Actions(p, ks, m)
    ensures forall a | a in Actions(p, ks, m) :: exists k | k in Elems(ks) :: a == ActionFor(p, m[k])
  {
    DistinctCardinality(ks);
    var acts := Actions(p, ks, m);
    forall k | k in Elems(ks) ensures ActionFor(p, m[k]) in acts {
      var i :| 0 <= i < |ks| && ks[i] == k;
      assert acts[i] == ActionFor(p, m[k]);
    }
    forall a | a in acts ensures exists k | k in Elems(ks) :: a == ActionFor(p, m[k]) {
      var i :| 0 <= i < |acts| && acts[i] == a;
      assert ks[i] in Elems(ks);
    }
  }

  /**
    With no whitelist and a non-empty repository, the delete phase removes
    exactly the live resources that are absent from the repository and not
    tagged Ignore.
   */
  lemma ComplementWithoutWhitelist(live: map<string, Resource>, repo: map<string, Resource>)
    requires |repo| > 0
    ensures DeleteKeys(live, repo, map[]) ==
              set id | id in live && id !in repo && Ignore !in live[id].policy
  {
  }

  /**
    With no whitelist, the apply phase applies exactly the repository
    resources that neither copy marks Ignore.
   */
  lemma AppliedWithoutWhitelist(live: map<string, Resource>, repo: map<string, Resource>)
    ensures ApplyKeys(repo, live, map[]) ==
              set id | id in repo && Ignore !in repo[id].policy && (id in live ==> Ignore !in live[id].policy)
  {
  }

  /**
    When repository and cluster hold the same ids and nothing is tagged
    Ignore, nothing is deleted and every repository resource is applied again:
    the planner does not compare contents, it leaves unchanged applies to the
    cluster.
   */
  lemma IdenticalStatesReapplyAll(live: map<string, Resource>, repo: map<string, Resource>)
    requires live.Keys == repo.Keys
    requires forall id | id in live :: Ignore !in live[id].policy
    requires forall id | id in repo :: Ignore !in repo[id].policy
    ensures DeleteKeys(live, repo, map[]) == {}
    ensures ApplyKeys(repo, live, map[]) == repo.Keys
  {
  }

  /** The guard `len(w) > 0 && !w[ns]` skips exactly the namespaces outside the whitelist. */
  lemma WhitelistGuard(w: Whitelist, ns: string)
    ensures (|w| > 0 && !Lookup(w, ns)) <==> !InScope(w, ns)
    ensures |w| == 0 ==> InScope(w, ns)
    ensures |w| > 0 && (forall k | k in w :: !w[k]) ==> !InScope(w, ns)
  {
  }
}
