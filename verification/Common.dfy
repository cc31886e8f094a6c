/** Vocabulary shared by the account, trial and payment models. */
module Common {
  /** Row ids are compared only for equality and, by `orderBy`, for order. */
  type UserId = nat

  datatype Option<+T> = None | Some(value: T)

  /** A row of linked_accounts. */
  datatype Link = Link(primary: UserId, linked: UserId) {
    predicate Touches(u: UserId) {
      primary == u || linked == u
    }

    function Other(u: UserId): UserId {
      if primary == u then linked else primary
    }
  }
}
