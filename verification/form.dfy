/**
 The room settings form: its controls, the snapshot of them taken when the
 form is loaded, the mapping from room settings to radio states (load) and
 back (save), and the two radio-click actions.
 */
module RoomForm {
  import opened Settings
  import opened Radio

  /** Positions of the access radios in their group. */
  const OnlyInvited: nat := 0
  const ExceptGuests: nat := 1
  const IncludingGuests: nat := 2

  /** Positions of the history radios in their group. */
  const SinceJoined: nat := 0
  const SinceInvited: nat := 1
  const SinceSelected: nat := 2
  const Anyone: nat := 3

  type AccessGroup = g: seq<bool> | |g| == 3 witness [true, false, false]
  type HistoryGroup = g: seq<bool> | |g| == 4 witness [true, false, false, false]

  /** The state of every control of the form: the two text fields, the
      directory toggle and the two radio groups. */
  datatype Form = Form(
    name: string,
    topic: string,
    directory: bool,
    access: AccessGroup,
    history: HistoryGroup)

  /** The controller: the form the user edits, and the snapshot of the
      controls taken when the form was loaded, against which a save diffs. */
  datatype Controller = Controller(initial: Form, current: Form)

  /** A join rule paired with a guest access, as one access radio stands for. */
  datatype Access = Access(joinRule: JoinRule, guestAccess: GuestAccess)

  /** What each access radio stands for, in group order. */
  const AccessChoices: seq<Access> :=
    [Access(Invite, Forbidden), Access(Public, Forbidden), Access(Public, CanJoin)]

  /** What a save sends when no access radio is on. */
  const DefaultAccess: Access := Access(Invite, Forbidden)

  /** What each history radio stands for, in group order. */
  const HistoryChoices: seq<HistoryVisibility> := [Joined, Invited, Shared, WorldReadable]

  /** What a save sends when no history radio is on. */
  const DefaultHistory: HistoryVisibility := Shared

  /** Access radios for a room's join rule and guest access, as set on load:
      "only invited" for any non-public room, otherwise the radio matching the
      guest access, or none when the room has no guest access setting. */
  function EncodeAccess(joinRule: JoinRule, guestAccess: Option<GuestAccess>): (g: AccessGroup)
    ensures AtMostOneOn(g)
    ensures g[OnlyInvited] <==> joinRule != Public
    ensures g[ExceptGuests] <==> joinRule == Public && guestAccess == Some(Forbidden)
    ensures g[IncludingGuests] <==> joinRule == Public && guestAccess == Some(CanJoin)
    ensures NoneOn(g) <==> joinRule == Public && guestAccess.None?
  {
    var public := joinRule == Public;
    var g := [!public, public && guestAccess == Some(Forbidden), public && guestAccess == Some(CanJoin)];
    assert guestAccess.Some? ==> guestAccess.value.CanJoin? || guestAccess.value.Forbidden?;
    g
  }

  /** History radios for a room's history visibility, as set on load: the
      radio whose visibility matches, or none when the room has none. */
  function EncodeHistory(visibility: Option<HistoryVisibility>): (g: HistoryGroup)
    ensures AtMostOneOn(g)
    ensures forall k :: 0 <= k < 4 ==> (g[k] <==> visibility == Some(HistoryChoices[k]))
    ensures NoneOn(g) <==> visibility.None?
  {
    var g := [visibility == Some(Joined), visibility == Some(Invited),
              visibility == Some(Shared), visibility == Some(WorldReadable)];
    assert visibility.Some? ==> visibility.value.Joined? || visibility.value.Invited? || visibility.value.Shared? || visibility.value.WorldReadable?;
    assert NoneOn(g) <== !g[0] && !g[1] && !g[2] && !g[3] by {
      if !g[0] && !g[1] && !g[2] && !g[3] {
        forall j | 0 <= j < 4 ensures !g[j] {
          if j == 0 {} else if j == 1 {} else if j == 2 {} else {}
        }
      }
    }
    g
  }

  /** The directory toggle for the result of the directory lookup: on only
      for a successful lookup that reports the room as public. */
  function DirectoryToggle(lookup: Option<DirectoryVisibility>): (on: bool)
    ensures on <==> lookup.Some? && lookup.value == DirectoryPublic
  {
    match lookup
    case Some(v) => v == DirectoryPublic
    case None => false
  }

  /** The directory visibility a save sends for the toggle. */
  function DirectoryOf(on: bool): (v: DirectoryVisibility)
    ensures DirectoryToggle(Some(v)) == on
  {
    if on then DirectoryPublic else DirectoryPrivate
  }

  /** The join rule and guest access a save sends for the access radios: the
      first radio that is on, in the order only invited, except guests,
      including guests; invite-only without guests when none is on. */
  function DecodeAccess(g: AccessGroup): (a: Access)
    ensures g[OnlyInvited] ==> a == Access(Invite, Forbidden)
    ensures !g[OnlyInvited] && g[ExceptGuests] ==> a == Access(Public, Forbidden)
    ensures !g[OnlyInvited] && !g[ExceptGuests] && g[IncludingGuests] ==> a == Access(Public, CanJoin)
    ensures NoneOn(g) ==> a == Access(Invite, Forbidden)
  {
    match FirstOn(g)
    case Some(k) => AccessChoices[k]
    case None => DefaultAccess
  }

  /** The history visibility a save sends for the history radios: the first
      radio that is on, in the order since joined, since invited, since
      selected, anyone; shared when none is on. */
  function DecodeHistory(g: HistoryGroup): (v: HistoryVisibility)
    ensures g[SinceJoined] ==> v == Joined
    ensures !g[SinceJoined] && g[SinceInvited] ==> v == Invited
    ensures !g[SinceJoined] && !g[SinceInvited] && g[SinceSelected] ==> v == Shared
    ensures !g[SinceJoined] && !g[SinceInvited] && !g[SinceSelected] && g[Anyone] ==> v == WorldReadable
    ensures NoneOn(g) ==> v == Shared
  {
    match FirstOn(g)
    case Some(k) => HistoryChoices[k]
    case None => DefaultHistory
  }

  /** A text field's contents for an optional room value (Swift's `?? ""`). */
  function TextOrEmpty(text: Option<string>): string {
    if text.Some? then text.value else ""
  }

  /** The controls as the load fills them from a room's state and from the
      result of the directory lookup; a missing name or topic shows as an
      empty text. */
  function LoadedForm(room: RoomState, lookup: Option<DirectoryVisibility>): (f: Form)
    ensures room.name.Some? ==> f.name == room.name.value
    ensures room.name.None? ==> f.name == ""
    ensures room.topic.Some? ==> f.topic == room.topic.value
    ensures room.topic.None? ==> f.topic == ""
    ensures f.directory <==> lookup == Some(DirectoryPublic)
    ensures AtMostOneOn(f.access) && AtMostOneOn(f.history)
    ensures f.access[OnlyInvited] <==> room.joinRule != Public
    ensures f.access[ExceptGuests] <==> room.joinRule == Public && room.guestAccess == Some(Forbidden)
    ensures f.access[IncludingGuests] <==> room.joinRule == Public && room.guestAccess == Some(CanJoin)
    ensures forall k :: 0 <= k < 4 ==> (f.history[k] <==> room.historyVisibility == Some(HistoryChoices[k]))
  {
    Form(TextOrEmpty(room.name), TextOrEmpty(room.topic), DirectoryToggle(lookup),
         EncodeAccess(room.joinRule, room.guestAccess), EncodeHistory(room.historyVisibility))
  }

  /** Loading the form, with the snapshot recording every control as loaded. */
  function Load(room: RoomState, lookup: Option<DirectoryVisibility>): (c: Controller)
    ensures c.current == LoadedForm(room, lookup)
    ensures c.initial == c.current
  {
    var f := LoadedForm(room, lookup);
    Controller(f, f)
  }

  /** Loading the form as the controller does it: the directory toggle is set
      from the lookup, but its snapshot keeps its declared value, off. */
  function LoadAsWritten(room: RoomState, lookup: Option<DirectoryVisibility>): (c: Controller)
    ensures c.current == LoadedForm(room, lookup)
    ensures !c.initial.directory
    ensures c.initial.(directory := c.current.directory) == c.current
  {
    var f := LoadedForm(room, lookup);
    Controller(f.(directory := false), f)
  }

  /** An access radio is clicked: only the sender is on in the access group,
      and nothing else in the controller changes. */
  function ClickAccess(c: Controller, sender: nat): (c': Controller)
    ensures sender < 3 ==> OnlyOn(c'.current.access, sender)
    ensures sender >= 3 ==> NoneOn(c'.current.access)
    ensures c'.initial == c.initial
    ensures c'.current.(access := c.current.access) == c.current
  {
    c.(current := c.current.(access := Selected(3, sender)))
  }

  /** A history radio is clicked: only the sender is on in the history group,
      and nothing else in the controller changes. */
  function ClickHistory(c: Controller, sender: nat): (c': Controller)
    ensures sender < 4 ==> OnlyOn(c'.current.history, sender)
    ensures sender >= 4 ==> NoneOn(c'.current.history)
    ensures c'.initial == c.initial
    ensures c'.current.(history := c.current.history) == c.current
  {
    c.(current := c.current.(history := Selected(4, sender)))
  }
}
