/** Identifiers that every component of the actor runtime shares. */
module Ids {

  /** A 64-bit message type or context name. */
  type Match = x: nat | x < 0x1_0000_0000_0000_0000

  const MATCH_NIL: Match := 0xFFFF_FFFF_FFFF_FFFF

  /** The message type of every exit notice; module Atoms derives it from its spelling. */
  const EXIT: Match := 9367423454647687760

  datatype Option<+T> = None | Some(value: T)

  datatype SvcId = SvcId(ctxid: Match, name: Match) {
    predicate IsSet() {
      name != MATCH_NIL
    }
  }

  /** The four fields that actor identifiers are compared by. */
  datatype AidKey = AidKey(ctxid: Match, timestamp: nat, ptr: nat, sid: nat)

  /** An actor identifier; its service name takes no part in comparisons. */
  datatype Aid = Aid(key: AidKey, svc: SvcId) {
    predicate IsSet() {
      key.ptr != 0
    }
  }

  const NO_SVC := SvcId(MATCH_NIL, MATCH_NIL)
  const NO_AID := Aid(AidKey(MATCH_NIL, 0, 0, 0xFFFF_FFFF), NO_SVC)
}

/** The two kinds of link requests. Only one for a link ties both sides. */
module LinkTypes {
  datatype LinkType = Linked | Monitored
}
