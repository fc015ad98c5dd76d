/** Creating a database instance: the offline-mode option check. */
module OfflineMode {
  import opened Wrappers

  /** The options of `createInstance` that decide the mode. An absent
      field is JavaScript `undefined`. */
  datatype CreateOptions = CreateOptions(id: Option<string>, offline: Option<bool>)

  /** A handle on the publish/subscribe transport, opened for the node
      whose identity it carries. */
  datatype PubSub = PubSub(node: string)

  /** A created instance: its identity and its transport, which is absent
      exactly in offline mode. */
  datatype Instance = Instance(id: string, offline: bool, pubsub: Option<PubSub>)

  /** The message of the error thrown for offline mode without an `id`. */
  const OfflineWithoutId := "Offline mode requires passing an `id` in the options"

  /** Whether the options ask for offline mode; it is off unless given. */
  predicate IsOffline(opts: CreateOptions) {
    opts.offline.GetOr(false)
  }

  /** `OrbitDB.createInstance(ipfs, options)`. `nodeId` is the identity of
      the IPFS node, used when the options carry no `id`. Offline mode
      without an `id` fails with `OfflineWithoutId`; otherwise the instance
      has a transport if and only if it is online. */
  function CreateInstance(opts: CreateOptions, nodeId: string): (r: Result<Instance, string>)
    ensures r.Failure? <==> IsOffline(opts) && opts.id.None?
    ensures r.Failure? ==> r.error == OfflineWithoutId
    ensures r.Success? ==> r.value.offline == IsOffline(opts)
    ensures r.Success? ==> (r.value.pubsub.None? <==> IsOffline(opts))
    ensures r.Success? ==> r.value.id == opts.id.GetOr(nodeId)
  {
    var offline := IsOffline(opts);
    if offline && opts.id.None? then
      Failure(OfflineWithoutId)
    else
      var id := opts.id.GetOr(nodeId);
      Success(Instance(id, offline, if offline then None else Some(PubSub(id))))
  }

  /** `{id: 'A', offline: true}` starts offline: the instance has no transport. */
  lemma OfflineWithIdHasNoPubSub(id: string, nodeId: string)
    ensures var r := CreateInstance(CreateOptions(Some(id), Some(true)), nodeId);
      r.Success? && r.value.pubsub == None && r.value.id == id
  {
  }

  /** `{offline: false}` and `{}` both start online, with a transport,
      whatever the `id`. */
  lemma OnlineHasPubSub(id: Option<string>, nodeId: string)
    ensures var r := CreateInstance(CreateOptions(id, Some(false)), nodeId);
      r.Success? && r.value.pubsub.Some?
    ensures var r := CreateInstance(CreateOptions(id, None), nodeId);
      r.Success? && r.value.pubsub.Some?
    ensures CreateInstance(CreateOptions(id, None), nodeId) == CreateInstance(CreateOptions(id, Some(false)), nodeId)
  {
  }

  /** `{offline: true}` without an `id` throws exactly `OfflineWithoutId`
      and yields no instance. */
  lemma OfflineWithoutIdFails(nodeId: string)
    ensures CreateInstance(CreateOptions(None, Some(true)), nodeId)
      == Failure("Offline mode requires passing an `id` in the options")
  {
  }
}
