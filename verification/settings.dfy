/**
 The room settings the form edits, as the Matrix SDK exposes them, and the
 remote calls the form can issue. The SDK's string-valued enumerations become
 datatypes; a state event the room does not have becomes `None`.
 */
module Settings {

  /** A room state field that may be missing, or a lookup that may fail. */
  datatype Option<T> = None | Some(value: T)

  /** Swift's `String` equality compares texts up to Unicode canonical
      equivalence. Normalisation itself is not modelled: it is a parameter,
      and two texts are the same exactly when their normal forms are equal. */
  predicate SameText(normalize: string -> string, a: string, b: string) {
    normalize(a) == normalize(b)
  }

  /** Who may join the room. Only "is it public" is read by the form. */
  datatype JoinRule = Public | Invite | Private | Knock

  /** Whether guest accounts may join. */
  datatype GuestAccess = CanJoin | Forbidden

  /** Which members may read the room's history. */
  datatype HistoryVisibility = WorldReadable | Shared | Invited | Joined

  /** Whether the room is listed in the server's public room directory. */
  datatype DirectoryVisibility = DirectoryPublic | DirectoryPrivate

  /** The part of a room's state the settings form reads. */
  datatype RoomState = RoomState(
    name: Option<string>,
    topic: Option<string>,
    joinRule: JoinRule,
    guestAccess: Option<GuestAccess>,
    historyVisibility: Option<HistoryVisibility>)
  {
    /** The SDK's `isJoinRulePublic`. */
    predicate IsJoinRulePublic() {
      joinRule == Public
    }
  }

  /** One fire-and-forget request to the room API. */
  datatype Call =
    | SetName(name: string)
    | SetTopic(topic: string)
    | SetDirectoryVisibility(visibility: DirectoryVisibility)
    | SetJoinRule(joinRule: JoinRule)
    | SetGuestAccess(guestAccess: GuestAccess)
    | SetHistoryVisibility(historyVisibility: HistoryVisibility)
}
