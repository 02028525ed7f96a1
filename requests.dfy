/** What the two back-office routers share about a request: the outcome of one
    validator of the validation library, and the JSON body that a list of
    `[key, value]` entries (what `Object.entries` yields) spells. */
module Requests {

  /** One validator: nothing when it passes, its own rule when it fails. */
  function Check<R>(ok: bool, rule: R): (errors: seq<R>)
    ensures errors == [] <==> ok
    ensures errors != [] ==> errors == [rule]
  {
    if ok then [] else [rule]
  }

  /** The body whose `Object.entries` are `entries`; a later entry for a key wins. */
  function BodyOf<V>(entries: seq<(string, V)>): map<string, V> {
    if entries == [] then map[]
    else BodyOf(entries[..|entries| - 1])[entries[|entries| - 1].0 := entries[|entries| - 1].1]
  }
}
