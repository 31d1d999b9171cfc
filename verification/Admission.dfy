/** What a request must pass before the gateway looks at its tool call: bounded
    correlation headers, an accepted identity, and unambiguous JSON. */
module Admissions {
  import opened Wrappers

  const CORRELATION: seq<string> :=
    ["x-heraclitus-agent", "x-heraclitus-run", "x-heraclitus-user", "x-heraclitus-environment",
     "x-heraclitus-trace", "x-heraclitus-server"]

  const MAX_CORRELATION: nat := 512

  /** The answer of the identity check, which runs in OIDC mode only. */
  datatype Identity = NotChecked | Accepted | Rejected(status: nat)

  /** Lengths in bytes of the headers present, the identity, and whether the body
      is empty or valid, unambiguous JSON. */
  datatype Ingress = Ingress(lengths: map<string, nat>, identity: Identity, bodyIsEmpty: bool, jsonIsValid: bool)

  predicate TooLong(lengths: map<string, nat>, name: string) {
    name in lengths && lengths[name] > MAX_CORRELATION
  }

  /** A request is turned away at the door, with the status of the first check it fails. */
  function Refusal(i: Ingress): Option<nat> {
    if exists name :: name in CORRELATION && TooLong(i.lengths, name) then Some(400)
    else if i.identity.Rejected? then Some(i.identity.status)
    else if !i.bodyIsEmpty && !i.jsonIsValid then Some(400)
    else None
  }

  /** The three checks of `proxy`, in its order. */
  method Admit(i: Ingress) returns (refusal: Option<nat>)
    ensures refusal == Refusal(i)
    ensures (exists name :: name in CORRELATION && name in i.lengths && i.lengths[name] > 512) ==> refusal == Some(400)
    ensures (forall name :: name in CORRELATION && name in i.lengths ==> i.lengths[name] <= 512) ==>
              refusal == if i.identity.Rejected? then Some(i.identity.status)
                         else if i.bodyIsEmpty || i.jsonIsValid then None
                         else Some(400)
  {
    for k := 0 to |CORRELATION|
      invariant forall j :: 0 <= j < k ==> !TooLong(i.lengths, CORRELATION[j])
    {
      if TooLong(i.lengths, CORRELATION[k]) {
        return Some(400);
      }
    }
    if i.identity.Rejected? {
      return Some(i.identity.status);
    }
    if !i.bodyIsEmpty && !i.jsonIsValid {
      return Some(400);
    }
    return None;
  }
}
