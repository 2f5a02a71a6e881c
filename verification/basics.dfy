/** Small shared vocabulary: optional values and lookups in JavaScript-style records.
    A JavaScript object indexed by a missing key yields `undefined`; the model writes
    that as `None`. */
module Basics {

  datatype Option<+T> = None | Some(value: T) {

    /** The contained value, or `default` when there is none (JavaScript's `x || default`
        when `x` can only be `undefined` or a truthy value). */
    function GetOr(default: T): T {
      match this
      case Some(v) => v
      case None => default
    }
  }

  /** `record[key]` on a `Record<string, V>`: the value, or `undefined` when absent. */
  function Lookup<K, V>(m: map<K, V>, key: K): (r: Option<V>)
    ensures r.Some? <==> key in m
    ensures r.Some? ==> r.value == m[key]
  {
    if key in m then Some(m[key]) else None
  }

  /** The id of the card whose request is in flight, if any (`processingId`). A screen
      keeps one such id, so starting a request for another card replaces it. */
  type InFlight = Option<string>

  /** A card's buttons are disabled exactly while its own request is in flight. */
  function CardEnabled(inFlight: InFlight, id: string): (enabled: bool)
    ensures enabled <==> inFlight != Some(id)
  {
    !(inFlight.Some? && inFlight.value == id)
  }
}
