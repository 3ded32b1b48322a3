/** Small value types shared by the component models. */
module Prelude {

  datatype Option<+T> = None | Some(value: T)

  /** The key under which every Kubernetes object is stored (kubvernor-common/src/resource_key.rs). */
  datatype ResourceKey = ResourceKey(group: string, namespace: string, name: string, kind: string)

  /** The two resource types that an xDS server manages.
      agentgateway: Primary = resources, Secondary = workloads.
      orion and envoy: Primary = listeners, Secondary = clusters. */
  datatype Slot = Primary | Secondary

  datatype PerSlot<T> = PerSlot(primary: T, secondary: T) {
    function At(slot: Slot): T {
      if slot.Primary? then primary else secondary
    }

    function With(slot: Slot, x: T): PerSlot<T> {
      if slot.Primary? then PerSlot(x, secondary) else PerSlot(primary, x)
    }
  }
}
