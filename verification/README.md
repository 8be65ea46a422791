# Reconciliation planner of the flux sync package

This project models one reconciliation pass of flux's `sync` package (`sync/sync.go`).
A pass takes the resources declared in the repository and the resources exported from the
cluster. It works out which live resources to delete and which repository resources to
apply. Then it hands the resulting `SyncDef` to the cluster.

- `cluster.dfy` (module `Cluster`) holds the values the pass exchanges with the cluster package:
  - `Resource`: a namespace, a set of `Policy` tags and opaque bytes;
  - `SyncAction`: a sum of `Delete` and `Apply`;
  - the `SyncDef` accumulator, a class whose `actions` field is appended to in place;
  - `Error`, which models `errors.Wrap` as `Wrapped(cause, message)`.
- `sync.dfy` (module `Sync`) holds the code itself:
  - the two guard chains, as methods (`PrepareSyncDelete`, `PrepareSyncApply`). Each has the
    source's early returns and appends to the `SyncDef` it is given.
  - the functions that specify those methods (`DeleteDecision`, `ApplyDecision`).
  - the two enumeration loops (`DeletePhase`, `ApplyPhase`).
  - the `Sync` method.
- `sync_properties.dfy` (module `SyncProperties`) holds lemmas about a whole pass.
- `sync_tests.dfy` (module `SyncTests`) restates the unit-test decision tables as lemmas,
  with three scenarios about the delete and apply sets.

Modelling choices:

- **Ids are map keys.** A resource's id is never recomputed from the resource. Every lookup
  uses the map key, as the code does.
- **Whitelist.** The whitelist is Go's `map[string]bool`. A missing key reads as `false`
  (`Lookup`), and a nil map is the empty map. A namespace is in scope when the whitelist is
  empty or maps it to `true` (`InScope`).
- **Map iteration order.** Go enumerates maps in an unspecified order. The loops pick the next
  key with `:|` from the keys not yet visited, so every order is allowed.
- **What `Sync` promises.** `Sync` returns, as ghost out-parameters, the ids behind the
  submitted Delete and Apply actions in visiting order. Its postcondition ties them to the
  order-free sets `DeleteKeys` and `ApplyKeys`. `EnumerationOrderIrrelevant` shows that the
  multiset of submitted actions does not depend on the order.
- **Collaborators.** They are inputs:
  - `exported` is the value `clus.Export()` returned;
  - `parseManifests` stands for `m.ParseManifests`;
  - `clusterSync` stands for `clus.Sync`.

  `Sync` also returns `submitted`: the definition passed to `clusterSync`, or `None` when the
  pass stopped before the call.

Behaviour of the code worth knowing:

- **Unchanged resources are applied again.** The apply phase does not compare contents. It
  applies every repository resource that is in scope and that neither its repository copy
  nor its live copy tags Ignore, whether or not it changed; sync/sync.go:26-30 leaves no-op
  detection to the cluster. So with no whitelist, identical non-empty states with nothing
  tagged Ignore still produce Apply actions, and when the repository drops one of two
  services the kept one is applied again beside the Delete (`IdenticalStatesReapplyAll`,
  `DeletionScenario`).
- **Deletes under a whitelist.** With a non-empty repository and a whitelist that excludes
  every declared resource, live resources in the whitelisted namespaces that the repository
  lacks and that are not tagged Ignore are still deleted (`WhitelistScenario`).
- **The whitelist is `map[string]bool`.** A missing key reads as `false`, so a non-empty
  whitelist whose entries are all `false` admits no namespace (`WhitelistGuard`).

## Model

| member | source | states |
|---|---|---|
| `Sync.DeleteDecision` | sync/sync.go:49-67 | The delete phase adds at most one action, and only `Delete(res)`. An empty repository map suppresses it. So do an Ignore tag and a namespace outside the whitelist. Once those guards pass, it deletes exactly when the id is not a repository key. |
| `Sync.ApplyDecision` | sync/sync.go:69-88 | The apply phase adds at most one action, and only `Apply(res)`. There are three distinct skips: the repository copy is tagged Ignore, the namespace is outside the whitelist, or the live copy under the same id is tagged Ignore. Otherwise the resource is applied. |
| `Sync.PrepareSyncDelete` | sync/sync.go:49-67 | The guard chain only appends. The old actions are a prefix of the new ones, the length grows by at most one, and the new actions are the old ones followed by the delete decision. |
| `Sync.PrepareSyncApply` | sync/sync.go:69-88 | The guard chain only appends. The old actions are a prefix of the new ones, the length grows by at most one, and the new actions are the old ones followed by the apply decision. |
| `Sync.DeleteKeys` | sync/sync.go:36-40 | The deleted ids are live keys that are absent from the repository, not tagged Ignore and in scope. There are none when the repository map is empty. Every live key meeting those conditions under a non-empty repository map is deleted. |
| `Sync.ApplyKeys` | sync/sync.go:42-44 | The applied ids are exactly the repository keys whose resource is untagged and in scope, and whose live copy, if any, is not tagged Ignore. |
| `Sync.DeletePhase` | sync/sync.go:36-40 | After visiting every live resource in any order, it has appended one Delete per id in `DeleteKeys`, each id once, and nothing else. |
| `Sync.ApplyPhase` | sync/sync.go:42-44 | After visiting every repository resource in any order, it has appended one Apply per id in `ApplyKeys`, each id once, and nothing else. |
| `Sync.Sync` | sync/sync.go:13-47 | An export or parse failure returns that error, wrapped with its own message, and the cluster is not called. Otherwise the cluster receives the Deletes for `DeleteKeys`, if deletes are on, followed by the Applies for `ApplyKeys`, each id once. The cluster's own result is returned unwrapped. Every Delete precedes every Apply, and with deletes off there is no Delete. |
| `SyncProperties.EnumerationOrderIrrelevant` | sync/sync.go:37-44 | Two enumerations of the same set of ids give the same multiset of actions, so the submitted definition is fixed up to order. |
| `SyncProperties.ActionsOfKeys` | sync/sync.go:31-44 | The actions for an enumeration of a key set number one per key. Each key's resource appears in its action, and every action comes from a key of the set. |
| `SyncProperties.ComplementWithoutWhitelist` | sync/sync.go:49-67 | With no whitelist and a non-empty repository, the deleted ids are the live ids absent from the repository and not tagged Ignore. |
| `SyncProperties.AppliedWithoutWhitelist` | sync/sync.go:69-88 | With no whitelist, for any repository (empty included), the applied ids are the repository ids that neither copy tags Ignore. |
| `SyncProperties.IdenticalStatesReapplyAll` | sync/sync.go:26-44 | With no whitelist, when both sides hold the same ids and nothing is tagged Ignore, nothing is deleted and every repository resource is applied again. |
| `SyncProperties.WhitelistGuard` | sync/sync.go:58-61 | The guard `len(w) > 0 && !w[ns]` skips exactly the namespaces that are not in scope. An empty whitelist never blocks, and a non-empty all-false whitelist blocks every namespace. |
| `SyncTests.PrepareSyncDeleteTable` | sync/sync_test.go:69-151 | It gives the five expected outcomes of the delete-decision table: nothing for an empty repository, nothing for an Ignore tag, a Delete when no guard applies, nothing outside the whitelist, and a Delete inside it. |
| `SyncTests.PrepareSyncApplyTable` | sync/sync_test.go:153-235 | It gives the five expected outcomes of the apply-decision table: nothing for an Ignore tag (with an empty and with a full cluster map), an Apply when no guard applies, nothing outside the whitelist, and an Apply inside it. A further case shows the separate skip for an untagged repository copy whose live copy under the same id is tagged Ignore. |
| `SyncTests.EmptyClusterScenario` | sync/sync.go:31-44 | Against an empty cluster and with no whitelist, both declared services are applied and nothing is deleted. |
| `SyncTests.DeletionScenario` | sync/sync.go:31-44 | With no whitelist, the live service the repository dropped is deleted, and the one it kept is applied again. |
| `SyncTests.WhitelistScenario` | sync/sync.go:58-78 | For every live map and a non-empty repository: a service outside the whitelist is never applied, deletions stay inside the whitelisted namespace, and every live resource there that the repository lacks and that is not tagged Ignore is deleted. |

## Left out

- Logging (`logger.Log` on each skip) is left out. It has no effect on the actions or the result.
- `clus.Export`, `m.ParseManifests` and `clus.Sync` are foreign calls into packages that are not
  part of this model. They appear as an input value and two function parameters.
  - YAML parsing and the Kubernetes API are not modelled.
  - `clusterSync` and `parseManifests` are pure functions, so the model does not capture what the
    cluster does with the definition.
- Error messages: only the two wrapping messages are kept (`ExportMessage`, `ParseMessage`).
  `errors.Wrap`'s stack traces and formatting are not modelled.
- Resource identity: resource-id construction and the policy package are not part of this model.
  - Ids are opaque strings.
  - A policy is a set of tags in which only `Ignore` matters.
- Resource contents: bytes are carried but never inspected, as in the code.
- The enumeration loops: Go's two `for ... range` loops are written as the methods `DeletePhase`
  and `ApplyPhase`, which `Sync` calls. This keeps each proof small. The loop order, the guard
  chains and the accumulator are unchanged.
- Tests: the end-to-end `TestSync`, its git checkout and its `syncCluster` mock are not modelled.
  They depend on the file system, git and manifest round-tripping.
- Namespace discovery in the Kubernetes cluster (`getNamespaces`) is not part of this model. Only
  its tests are available, not its code.
