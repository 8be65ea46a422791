/**
  The reconciliation planner: one pass that compares the resources declared in
  the repository with the resources exported from the cluster and hands the
  resulting delete and apply actions to the cluster.
 */
module Sync {
  import opened Wrappers
  import opened Cluster

  /** Namespace whitelist as configured: a namespace is admitted when it maps to true. */
  type Whitelist = map<string, bool>

  /** Context added to an export failure. */
  const ExportMessage := "exporting resource defs from cluster"

  /** Context added to a parse failure. */
  const ParseMessage := "parsing exported resources"

  /** Go's `m[k]` on a map of bools: a missing key reads as false. */
  function Lookup(w: Whitelist, ns: string): bool
  {
    if ns in w then w[ns] else false
  }

  /** The namespaces a whitelist admits. */
  function Admitted(w: Whitelist): set<string>
  {
    set ns | ns in w && w[ns]
  }

  /** An empty (or nil) whitelist admits everything; otherwise only the admitted namespaces. */
  predicate InScope(w: Whitelist, ns: string)
  {
    |w| == 0 || ns in Admitted(w)
  }

  /**
    What the delete phase adds for the live resource `res` stored under `id`:
    nothing or a single Delete.
   */
  function DeleteDecision(repoResources: map<string, Resource>, id: string, res: Resource,
                          nsWhitelist: Whitelist): (r: seq<SyncAction>)
    ensures |r| <= 1 && (r != [] ==> r == [Delete(res)])
    // an empty repository never deletes anything
    ensures |repoResources| == 0 ==> r == []
    // a resource tagged Ignore is never deleted
    ensures Ignore in res.policy ==> r == []
    // a resource outside the whitelist is never deleted
    ensures !InScope(nsWhitelist, res.namespace) ==> r == []
    // once the guards pass, delete exactly when the repository lacks the id
    ensures |repoResources| > 0 && Ignore !in res.policy && InScope(nsWhitelist, res.namespace) ==>
              (r == [Delete(res)] <==> id !in repoResources) && (r == [] <==> id in repoResources)
  {
    if |repoResources| == 0 then []
    else if Ignore in res.policy then []
    else if !InScope(nsWhitelist, res.namespace) then []
    else if id !in repoResources then [Delete(res)]
    else []
  }

  /**
    What the apply phase adds for the repository resource `res` stored under `id`:
    nothing or a single Apply.
   */
  function ApplyDecision(clusterResources: map<string, Resource>, id: string, res: Resource,
                         nsWhitelist: Whitelist): (r: seq<SyncAction>)
    ensures |r| <= 1 && (r != [] ==> r == [Apply(res)])
    // the repository copy is tagged Ignore
    ensures Ignore in res.policy ==> r == []
    // the resource is outside the whitelist
    ensures !InScope(nsWhitelist, res.namespace) ==> r == []
    // the live copy under the same id is tagged Ignore
    ensures id in clusterResources && Ignore in clusterResources[id].policy ==> r == []
    // otherwise the resource is applied
    ensures (Ignore !in res.policy && InScope(nsWhitelist, res.namespace) &&
             (id !in clusterResources || Ignore !in clusterResources[id].policy)) ==> r == [Apply(res)]
  {
    if Ignore in res.policy then []
    else if !InScope(nsWhitelist, res.namespace) then []
    else if id in clusterResources && Ignore in clusterResources[id].policy then []
    else [Apply(res)]
  }

  /** Appends a Delete for `res` to `sync` when its guards pass and the repository lacks `id`. */
  method PrepareSyncDelete(repoResources: map<string, Resource>, id: string, res: Resource,
                           sync: SyncDef, nsWhitelist: Whitelist)
    modifies sync
    ensures old(sync.actions) <= sync.actions && |sync.actions| <= |old(sync.actions)| + 1
    ensures sync.actions == old(sync.actions) + DeleteDecision(repoResources, id, res, nsWhitelist)
  {
    if |repoResources| == 0 {
      return;
    }
    if Ignore in res.policy {
      return;
    }
    if |nsWhitelist| > 0 && !Lookup(nsWhitelist, res.namespace) {
      return;
    }
    if id !in repoResources {
      sync.actions := sync.actions + [Delete(res)];
    }
  }

  /** Appends an Apply for `res` to `sync` unless a guard skips it. */
  method PrepareSyncApply(clusterResources: map<string, Resource>, id: string, res: Resource,
                          sync: SyncDef, nsWhitelist: Whitelist)
    modifies sync
    ensures old(sync.actions) <= sync.actions && |sync.actions| <= |old(sync.actions)| + 1
    ensures sync.actions == old(sync.actions) + ApplyDecision(clusterResources, id, res, nsWhitelist)
  {
    if Ignore in res.policy {
      return;
    }
    if |nsWhitelist| > 0 && !Lookup(nsWhitelist, res.namespace) {
      return;
    }
    if id in clusterResources {
      var cres := clusterResources[id];
      if Ignore in cres.policy {
        return;
      }
    }
    sync.actions := sync.actions + [Apply(res)];
  }

  /** The ids of the live resources the delete phase removes. */
  function DeleteKeys(clusterResources: map<string, Resource>, repoResources: map<string, Resource>,
                      nsWhitelist: Whitelist): (ids: set<string>)
    ensures ids <= clusterResources.Keys
    ensures |repoResources| == 0 ==> ids == {}
    ensures forall id | id in ids ::
              id !in repoResources && Ignore !in clusterResources[id].policy &&
              InScope(nsWhitelist, clusterResources[id].namespace)
    ensures forall id | id in clusterResources && id !in repoResources && |repoResources| > 0 ::
              Ignore !in clusterResources[id].policy && InScope(nsWhitelist, clusterResources[id].namespace) ==>
                id in ids
  {
    set id | id in clusterResources && DeleteDecision(repoResources, id, clusterResources[id], nsWhitelist) != []
  }

  /** The ids of the repository resources the apply phase applies. */
  function ApplyKeys(repoResources: map<string, Resource>, clusterResources: map<string, Resource>,
                     nsWhitelist: Whitelist): (ids: set<string>)
    ensures ids <= repoResources.Keys
    ensures forall id | id in ids ::
              Ignore !in repoResources[id].policy && InScope(nsWhitelist, repoResources[id].namespace) &&
              (id in clusterResources ==> Ignore !in clusterResources[id].policy)
    ensures forall id | id in repoResources ::
              Ignore !in repoResources[id].policy && InScope(nsWhitelist, repoResources[id].namespace) &&
              (id in clusterResources ==> Ignore !in clusterResources[id].policy) ==>
                id in ids
  {
    set id | id in repoResources && ApplyDecision(clusterResources, id, repoResources[id], nsWhitelist) != []
  }

  /** The two phases of a pass. */
  datatype Phase = Deleting | Applying

  function ActionFor(phase: Phase, res: Resource): SyncAction
  {
    match phase
    case Deleting => Delete(res)
    case Applying => Apply(res)
  }

  /** Every id listed is a key of `m`. */
  predicate KeysIn(ids: seq<string>, m: map<string, Resource>)
  {
    forall k | k in ids :: k in m
  }

  /** The actions for the resources stored under `ids`, in that order. */
  function Actions(phase: Phase, ids: seq<string>, m: map<string, Resource>): seq<SyncAction>
    requires KeysIn(ids, m)
  {
    seq(|ids|, i requires 0 <= i < |ids| => ActionFor(phase, m[ids[i]]))
  }

  function Elems(s: seq<string>): set<string>
  {
    set k | k in s
  }

  /** Extending the ids by one extends the actions by the new id's action. */
  lemma ActionsSnoc(phase: Phase, ids: seq<string>, id: string, m: map<string, Resource>)
    requires KeysIn(ids, m) && id in m
    ensures KeysIn(ids + [id], m)
    ensures Actions(phase, ids + [id], m) == Actions(phase, ids, m) + [ActionFor(phase, m[id])]
  {
  }

  predicate Distinct(s: seq<string>)
  {
    forall i, j | 0 <= i < j < |s| :: s[i] != s[j]
  }

  /**
    One step of enumerating a key set: `ks` lists, without repetition, the
    members of `goal` already visited; visiting `id` keeps that so.
   */
  lemma VisitStep(ks: seq<string>, goal: set<string>, todo: set<string>, id: string, taken: bool)
    requires Distinct(ks) && (forall k | k in ks :: k !in todo) && Elems(ks) == goal - todo
    requires id in todo && (taken <==> id in goal)
    ensures var next := if taken then ks + [id] else ks;
            && Distinct(next)
            && (forall k | k in next :: k !in todo - {id})
            && Elems(next) == goal - (todo - {id})
  {
    if taken {
      assert Elems(ks + [id]) == Elems(ks) + {id};
    } else {
      assert goal - todo == goal - (todo - {id});
    }
  }

  /** In a delete part followed by an apply part, every Delete comes before every Apply. */
  lemma DeletesFirst(dels: seq<string>, live: map<string, Resource>, apps: seq<string>, repo: map<string, Resource>)
    requires KeysIn(dels, live) && KeysIn(apps, repo)
    ensures var def := Actions(Deleting, dels, live) + Actions(Applying, apps, repo);
            forall i, j | 0 <= i < j < |def| :: def[j].Delete? ==> def[i].Delete?
  {
  }

  /**
    The delete phase: visits every live resource, in an unspecified order, and
    lets PrepareSyncDelete decide. The ghost `deleted` lists the ids deleted, in
    visiting order.
   */
  method DeletePhase(clusterResources: map<string, Resource>, repoResources: map<string, Resource>,
                     sync: SyncDef, nsWhitelist: Whitelist)
    returns (ghost deleted: seq<string>)
    modifies sync
    ensures Distinct(deleted) && Elems(deleted) == DeleteKeys(clusterResources, repoResources, nsWhitelist)
    ensures KeysIn(deleted, clusterResources)
    ensures sync.actions == old(sync.actions) + Actions(Deleting, deleted, clusterResources)
  {
    deleted := [];
    ghost var goal := DeleteKeys(clusterResources, repoResources, nsWhitelist);
    var todo := clusterResources.Keys;
    while todo != {}
      invariant todo <= clusterResources.Keys
      invariant Distinct(deleted) && forall k | k in deleted :: k !in todo
      invariant Elems(deleted) == goal - todo && KeysIn(deleted, clusterResources)
      invariant sync.actions == old(sync.actions) + Actions(Deleting, deleted, clusterResources)
      decreases todo
    {
      var id :| id in todo;
      PrepareSyncDelete(repoResources, id, clusterResources[id], sync, nsWhitelist);
      ghost var taken := DeleteDecision(repoResources, id, clusterResources[id], nsWhitelist) != [];
      VisitStep(deleted, goal, todo, id, taken);
      if taken {
        ActionsSnoc(Deleting, deleted, id, clusterResources);
        deleted := deleted + [id];
      }
      todo := todo - {id};
    }
  }

  /**
    The apply phase: visits every repository resource, in an unspecified
    order, and lets PrepareSyncApply decide. The ghost `applied` lists the ids
    applied, in visiting order.
   */
  method ApplyPhase(repoResources: map<string, Resource>, clusterResources: map<string, Resource>,
                    sync: SyncDef, nsWhitelist: Whitelist)
    returns (ghost applied: seq<string>)
    modifies sync
    ensures Distinct(applied) && Elems(applied) == ApplyKeys(repoResources, clusterResources, nsWhitelist)
    ensures KeysIn(applied, repoResources)
    ensures sync.actions == old(sync.actions) + Actions(Applying, applied, repoResources)
  {
    applied := [];
    ghost var goal := ApplyKeys(repoResources, clusterResources, nsWhitelist);
    var todo := repoResources.Keys;
    while todo != {}
      invariant todo <= repoResources.Keys
      invariant Distinct(applied) && forall k | k in applied :: k !in todo
      invariant Elems(applied) == goal - todo && KeysIn(applied, repoResources)
      invariant sync.actions == old(sync.actions) + Actions(Applying, applied, repoResources)
      decreases todo
    {
      var id :| id in todo;
      PrepareSyncApply(clusterResources, id, repoResources[id], sync, nsWhitelist);
      ghost var taken := ApplyDecision(clusterResources, id, repoResources[id], nsWhitelist) != [];
      VisitStep(applied, goal, todo, id, taken);
      if taken {
        ActionsSnoc(Applying, applied, id, repoResources);
        applied := applied + [id];
      }
      todo := todo - {id};
    }
  }

  /**
    One reconciliation pass. `exported` is what `clus.Export` returned,
    `parseManifests` stands for `m.ParseManifests` and `clusterSync` for
    `clus.Sync`. `submitted` is the definition handed to `clusterSync`, or None
    when the pass stopped before calling it. The ghost `deleted` and `applied`
    are the ids behind the submitted actions, in the (unspecified) order the
    maps happened to be enumerated.
   */
  method Sync(parseManifests: seq<bv8> -> Result<map<string, Resource>, Error>,
              repoResources: map<string, Resource>,
              exported: Result<seq<bv8>, Error>,
              clusterSync: seq<SyncAction> -> Option<Error>,
              deletes: bool, nsWhitelist: Whitelist)
    returns (err: Option<Error>, submitted: Option<seq<SyncAction>>,
             ghost deleted: seq<string>, ghost applied: seq<string>)
    ensures exported.Failure? ==>
              err == Some(Wrapped(exported.error, ExportMessage)) && submitted == None
    ensures exported.Success? && parseManifests(exported.value).Failure? ==>
              err == Some(Wrapped(parseManifests(exported.value).error, ParseMessage)) && submitted == None
    ensures exported.Success? && parseManifests(exported.value).Success? ==>
              var live := parseManifests(exported.value).value;
              && submitted.Some?
              && err == clusterSync(submitted.value)
              && Distinct(deleted)
              && Elems(deleted) == (if deletes then DeleteKeys(live, repoResources, nsWhitelist) else {})
              && Distinct(applied)
              && Elems(applied) == ApplyKeys(repoResources, live, nsWhitelist)
              && KeysIn(deleted, live) && KeysIn(applied, repoResources)
              && submitted.value == Actions(Deleting, deleted, live) + Actions(Applying, applied, repoResources)
    // every Delete precedes every Apply
    ensures submitted.Some? ==>
              forall i, j | 0 <= i < j < |submitted.value| ::
                submitted.value[j].Delete? ==> submitted.value[i].Delete?
    ensures submitted.Some? && !deletes ==> forall a | a in submitted.value :: a.Apply?
  {
    deleted, applied := [], [];
    if exported.Failure? {
      return Some(Wrapped(exported.error, ExportMessage)), None, deleted, applied;
    }
    var parsed := parseManifests(exported.value);
    if parsed.Failure? {
      return Some(Wrapped(parsed.error, ParseMessage)), None, deleted, applied;
    }
    var clusterResources := parsed.value;

    var sync := new SyncDef();
    if deletes {
      deleted := DeletePhase(clusterResources, repoResources, sync, nsWhitelist);
    }
    applied := ApplyPhase(repoResources, clusterResources, sync, nsWhitelist);
    DeletesFirst(deleted, clusterResources, applied, repoResources);

    submitted := Some(sync.actions);
    err := clusterSync(sync.actions);
  }
}
