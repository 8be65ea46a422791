/**
  The types the reconciler exchanges with the cluster package: resources with
  their policy tags, sync actions, the sync definition handed to the cluster,
  and errors.
 */
module Cluster {

  /** A policy tag attached to a resource. Only `Ignore` changes what the planner does. */
  datatype Policy = Ignore | Other(name: string)

  /**
    A resource as parsed from the repository or exported from the cluster.
    Its identity is the key under which it is stored in a resource map.
   */
  datatype Resource = Resource(namespace: string, policy: set<Policy>, bytes: seq<bv8>)

  /** One action for the cluster: delete a live resource, or apply a repository resource. */
  datatype SyncAction = Delete(res: Resource) | Apply(res: Resource)

  /** The accumulator the planner appends to; handed to the cluster as a whole. */
  class SyncDef {
    var actions: seq<SyncAction>

    constructor ()
      ensures actions == []
    {
      actions := [];
    }
  }

  /** An error from a collaborator, possibly wrapped with a context message. */
  datatype Error = Cause(detail: string) | Wrapped(cause: Error, message: string)
}
