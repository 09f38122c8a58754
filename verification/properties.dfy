/**
 Properties of the room settings form: what each save request carries and
 when it is sent, the round trips between loading and saving, and the
 behaviour of the directory snapshot as the controller keeps it.
 */
module Properties {
  import opened Settings
  import opened Radio
  import opened RoomForm
  import opened Saving

  // ---------------------------------------------------------------------
  // What a save sends, field by field
  // ---------------------------------------------------------------------

  /** The name is sent exactly when its text differs from the snapshot, and
      only ever with the current text. */
  lemma SaveName(c: Controller, normalize: string -> string)
    ensures SetName(c.current.name) in Save(c, normalize) <==> !SameText(normalize, c.current.name, c.initial.name)
    ensures forall call | call in Save(c, normalize) && call.SetName? :: call.name == c.current.name
  {
    var calls := Save(c, normalize);
    assert calls == NameCalls(c, normalize) + (TopicCalls(c, normalize) + DirectoryCalls(c) + AccessCalls(c) + HistoryCalls(c));
  }

  /** The topic is sent exactly when its text differs from the snapshot, and
      only ever with the current text. */
  lemma SaveTopic(c: Controller, normalize: string -> string)
    ensures SetTopic(c.current.topic) in Save(c, normalize) <==> !SameText(normalize, c.current.topic, c.initial.topic)
    ensures forall call | call in Save(c, normalize) && call.SetTopic? :: call.topic == c.current.topic
  {
    var calls := Save(c, normalize);
    assert calls == NameCalls(c, normalize) + TopicCalls(c, normalize) + (DirectoryCalls(c) + AccessCalls(c) + HistoryCalls(c));
  }

  /** An edit that changes the name's code points but not its text under
      Swift's comparison (a precomposed letter replaced by a letter and a
      combining mark, say) sends no name. */
  lemma EquivalentNameNotSent(c: Controller, normalize: string -> string)
    requires c.current.name != c.initial.name
    requires SameText(normalize, c.current.name, c.initial.name)
    ensures forall call | call in Save(c, normalize) :: !call.SetName?
  {
    var calls := Save(c, normalize);
    assert calls == NameCalls(c, normalize) + (TopicCalls(c, normalize) + DirectoryCalls(c) + AccessCalls(c) + HistoryCalls(c));
  }

  /** The directory visibility is sent exactly when the toggle differs from
      its snapshot: public when the toggle is on, private when it is off. */
  lemma SaveDirectory(c: Controller, normalize: string -> string)
    ensures SetDirectoryVisibility(DirectoryOf(c.current.directory)) in Save(c, normalize)
            <==> c.current.directory != c.initial.directory
    ensures forall call | call in Save(c, normalize) && call.SetDirectoryVisibility? ::
              (call.visibility == DirectoryPublic <==> c.current.directory)
  {
    var calls := Save(c, normalize);
    assert calls == NameCalls(c, normalize) + TopicCalls(c, normalize) + DirectoryCalls(c) + (AccessCalls(c) + HistoryCalls(c));
  }

  /** The join rule and the guest access are sent together, exactly when
      some access radio differs from its snapshot, with the values decoded
      from the access radios. */
  lemma SaveAccess(c: Controller, normalize: string -> string)
    ensures SetJoinRule(DecodeAccess(c.current.access).joinRule) in Save(c, normalize)
            <==> c.current.access != c.initial.access
    ensures SetGuestAccess(DecodeAccess(c.current.access).guestAccess) in Save(c, normalize)
            <==> c.current.access != c.initial.access
    ensures forall call | call in Save(c, normalize) && call.SetJoinRule? ::
              call.joinRule == DecodeAccess(c.current.access).joinRule
    ensures forall call | call in Save(c, normalize) && call.SetGuestAccess? ::
              call.guestAccess == DecodeAccess(c.current.access).guestAccess
  {
    var calls := Save(c, normalize);
    assert calls == (NameCalls(c, normalize) + TopicCalls(c, normalize) + DirectoryCalls(c)) + AccessCalls(c) + HistoryCalls(c);
  }

  /** The history visibility is sent exactly when some history radio differs
      from its snapshot, with the value decoded from the history radios. */
  lemma SaveHistory(c: Controller, normalize: string -> string)
    ensures SetHistoryVisibility(DecodeHistory(c.current.history)) in Save(c, normalize)
            <==> c.current.history != c.initial.history
    ensures forall call | call in Save(c, normalize) && call.SetHistoryVisibility? ::
              call.historyVisibility == DecodeHistory(c.current.history)
  {
    var calls := Save(c, normalize);
    assert calls == (NameCalls(c, normalize) + TopicCalls(c, normalize) + DirectoryCalls(c) + AccessCalls(c)) + HistoryCalls(c);
  }

  // ---------------------------------------------------------------------
  // Round trips between load and save
  // ---------------------------------------------------------------------

  /** Decoding the access radios as loaded gives invite-only without guests
      for a non-public room, and the public rule with the room's guest access
      for a public one; a public room without a guest access setting loads
      with no access radio on and so decodes to the default. */
  lemma AccessLoadSave(joinRule: JoinRule, guestAccess: Option<GuestAccess>)
    ensures joinRule != Public ==> DecodeAccess(EncodeAccess(joinRule, guestAccess)) == Access(Invite, Forbidden)
    ensures joinRule == Public && guestAccess.Some? ==>
              DecodeAccess(EncodeAccess(joinRule, guestAccess)) == Access(Public, guestAccess.value)
    ensures joinRule == Public && guestAccess.None? ==>
              DecodeAccess(EncodeAccess(joinRule, guestAccess)) == DefaultAccess
  {
  }

  /** Every access a save can send survives a load: loading it turns on
      exactly one access radio, and decoding that gives it back. */
  lemma AccessChoiceLoadSave(k: nat)
    requires k < |AccessChoices|
    ensures OnlyOn(EncodeAccess(AccessChoices[k].joinRule, Some(AccessChoices[k].guestAccess)), k)
    ensures DecodeAccess(EncodeAccess(AccessChoices[k].joinRule, Some(AccessChoices[k].guestAccess))) == AccessChoices[k]
  {
  }

  /** When exactly one access radio is on, loading what a save sends for it
      turns on that same radio and no other. */
  lemma AccessSaveLoad(g: AccessGroup)
    requires ExactlyOneOn(g)
    ensures EncodeAccess(DecodeAccess(g).joinRule, Some(DecodeAccess(g).guestAccess)) == g
  {
  }

  /** Loading a history visibility turns on exactly the matching radio, and
      decoding gives the visibility back; a room without one loads with no
      history radio on and decodes to shared. */
  lemma HistoryLoadSave(visibility: Option<HistoryVisibility>)
    ensures visibility.Some? ==> ExactlyOneOn(EncodeHistory(visibility))
    ensures visibility.Some? ==> DecodeHistory(EncodeHistory(visibility)) == visibility.value
    ensures visibility.None? ==> DecodeHistory(EncodeHistory(visibility)) == DefaultHistory
  {
    if visibility.Some? {
      var g := EncodeHistory(visibility);
      var k :| 0 <= k < 4 && HistoryChoices[k] == visibility.value;
      assert OnlyOn(g, k);
      FirstOnOnlyOn(g, k);
    }
  }

  /** When exactly one history radio is on, loading what a save sends for it
      turns on that same radio and no other. */
  lemma HistorySaveLoad(g: HistoryGroup)
    requires ExactlyOneOn(g)
    ensures EncodeHistory(Some(DecodeHistory(g))) == g
  {
  }

  /** The directory toggle and the directory visibility a save sends for it
      are inverse: a successful lookup loads a toggle that saves back as the
      same visibility. */
  lemma DirectoryRoundTrip(visibility: DirectoryVisibility, on: bool)
    ensures DirectoryOf(DirectoryToggle(Some(visibility))) == visibility
    ensures DirectoryToggle(Some(DirectoryOf(on))) == on
    ensures !DirectoryToggle(None)
  {
  }

  /** Clicking an access radio makes the next save send what that radio
      stands for. */
  lemma ClickAccessSave(c: Controller, k: nat)
    requires k < 3
    ensures DecodeAccess(ClickAccess(c, k).current.access) == AccessChoices[k]
  {
  }

  /** Clicking a history radio makes the next save send what that radio
      stands for. */
  lemma ClickHistorySave(c: Controller, k: nat)
    requires k < 4
    ensures DecodeHistory(ClickHistory(c, k).current.history) == HistoryChoices[k]
  {
  }

  // ---------------------------------------------------------------------
  // Saving straight after loading
  // ---------------------------------------------------------------------

  /** With every control snapshotted as loaded, saving an unedited form
      issues no request. */
  lemma LoadSaveIsSilent(room: RoomState, lookup: Option<DirectoryVisibility>, normalize: string -> string)
    ensures Save(Load(room, lookup), normalize) == []
  {
  }

  /** As the controller keeps its snapshot, an unedited save never sends a
      name, topic, join rule, guest access or history visibility; it sends a
      directory visibility, public, exactly when the lookup found the room
      public. */
  lemma LoadAsWrittenSave(room: RoomState, lookup: Option<DirectoryVisibility>, normalize: string -> string)
    ensures Save(LoadAsWritten(room, lookup), normalize) ==
              if lookup == Some(DirectoryPublic) then [SetDirectoryVisibility(DirectoryPublic)] else []
  {
  }

  /** As the controller keeps its snapshot, a room listed in the directory
      cannot be unlisted: switching the toggle off and saving sends nothing. */
  lemma UnlistLostAsWritten(room: RoomState, normalize: string -> string)
    ensures var c := LoadAsWritten(room, Some(DirectoryPublic));
            Save(c.(current := c.current.(directory := false)), normalize) == []
  {
  }

  /** With the toggle snapshotted as loaded, switching it off for a listed
      room and saving sends exactly one request: private. */
  lemma UnlistSent(room: RoomState, normalize: string -> string)
    ensures var c := Load(room, Some(DirectoryPublic));
            Save(c.(current := c.current.(directory := false)), normalize) == [SetDirectoryVisibility(DirectoryPrivate)]
  {
  }

  /** Clicking an access radio straight after loading and saving sends the
      join rule and guest access that radio stands for, unless it was
      already the only access radio on, in which case nothing is sent. */
  lemma LoadClickAccessSave(room: RoomState, lookup: Option<DirectoryVisibility>, k: nat, normalize: string -> string)
    requires k < 3
    ensures var loaded := EncodeAccess(room.joinRule, room.guestAccess);
            Save(ClickAccess(Load(room, lookup), k), normalize) ==
              if OnlyOn(loaded, k) then []
              else [SetJoinRule(AccessChoices[k].joinRule), SetGuestAccess(AccessChoices[k].guestAccess)]
  {
  }

  /** Clicking a history radio straight after loading and saving sends the
      history visibility that radio stands for, unless it was already the
      only history radio on, in which case nothing is sent. */
  lemma LoadClickHistorySave(room: RoomState, lookup: Option<DirectoryVisibility>, k: nat, normalize: string -> string)
    requires k < 4
    ensures var loaded := EncodeHistory(room.historyVisibility);
            Save(ClickHistory(Load(room, lookup), k), normalize) ==
              if OnlyOn(loaded, k) then [] else [SetHistoryVisibility(HistoryChoices[k])]
  {
  }
}
