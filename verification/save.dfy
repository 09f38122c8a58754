/**
 The save action: each field whose controls differ from the snapshot taken
 at load is sent to the room, one request per field (two for access: the
 join rule and the guest access), in the order name, topic, directory
 visibility, join rule, guest access, history visibility.
 */
module Saving {
  import opened Settings
  import opened Radio
  import opened RoomForm

  /** Some radio of a group differs from its snapshot. */
  predicate AnyRadioDiffers(initial: seq<bool>, current: seq<bool>)
    requires |initial| == |current|
  {
    exists k :: 0 <= k < |current| && initial[k] != current[k]
  }

  /** The name request: sent, with the current text, only when the name
      field is not the same text as its snapshot. */
  function NameCalls(c: Controller, normalize: string -> string): (r: seq<Call>)
    ensures r == [] <==> SameText(normalize, c.current.name, c.initial.name)
    ensures forall call | call in r :: call == SetName(c.current.name)
    ensures |r| <= 1
  {
    if !SameText(normalize, c.current.name, c.initial.name) then [SetName(c.current.name)] else []
  }

  /** The topic request: sent, with the current text, only when the topic
      field is not the same text as its snapshot. */
  function TopicCalls(c: Controller, normalize: string -> string): (r: seq<Call>)
    ensures r == [] <==> SameText(normalize, c.current.topic, c.initial.topic)
    ensures forall call | call in r :: call == SetTopic(c.current.topic)
    ensures |r| <= 1
  {
    if !SameText(normalize, c.current.topic, c.initial.topic) then [SetTopic(c.current.topic)] else []
  }

  /** The directory request: sent only when the toggle differs from its
      snapshot, public for on and private for off. */
  function DirectoryCalls(c: Controller): (r: seq<Call>)
    ensures r == [] <==> c.current.directory == c.initial.directory
    ensures forall call | call in r ::
              call.SetDirectoryVisibility? && (call.visibility == DirectoryPublic <==> c.current.directory)
    ensures |r| <= 1
  {
    if c.initial.directory != c.current.directory
    then [SetDirectoryVisibility(DirectoryOf(c.current.directory))]
    else []
  }

  /** The access requests: the join rule and then the guest access decoded
      from the access radios, sent only when some access radio differs from
      its snapshot. */
  function AccessCalls(c: Controller): (r: seq<Call>)
    ensures r == [] <==> c.current.access == c.initial.access
    ensures r != [] ==> r == [SetJoinRule(DecodeAccess(c.current.access).joinRule),
                              SetGuestAccess(DecodeAccess(c.current.access).guestAccess)]
  {
    AnyRadioDiffersIff(c.initial.access, c.current.access);
    if AnyRadioDiffers(c.initial.access, c.current.access)
    then var a := DecodeAccess(c.current.access); [SetJoinRule(a.joinRule), SetGuestAccess(a.guestAccess)]
    else []
  }

  /** The history request: the visibility decoded from the history radios,
      sent only when some history radio differs from its snapshot. */
  function HistoryCalls(c: Controller): (r: seq<Call>)
    ensures r == [] <==> c.current.history == c.initial.history
    ensures r != [] ==> r == [SetHistoryVisibility(DecodeHistory(c.current.history))]
  {
    AnyRadioDiffersIff(c.initial.history, c.current.history);
    if AnyRadioDiffers(c.initial.history, c.current.history)
    then [SetHistoryVisibility(DecodeHistory(c.current.history))]
    else []
  }

  /** A group's radios differ from their snapshot exactly when the group
      differs from it. */
  lemma AnyRadioDiffersIff(initial: seq<bool>, current: seq<bool>)
    requires |initial| == |current|
    ensures AnyRadioDiffers(initial, current) <==> initial != current
  {
  }

  /** The requests a save issues for the controller's form, texts being
      compared under `normalize`: one per field that differs from its
      snapshot (two for access), so none at all when every control matches
      its snapshot. */
  function Save(c: Controller, normalize: string -> string): (calls: seq<Call>)
    ensures |calls| ==
              (if !SameText(normalize, c.current.name, c.initial.name) then 1 else 0)
              + (if !SameText(normalize, c.current.topic, c.initial.topic) then 1 else 0)
              + (if c.current.directory != c.initial.directory then 1 else 0)
              + (if c.current.access != c.initial.access then 2 else 0)
              + (if c.current.history != c.initial.history then 1 else 0)
    ensures calls == [] <==>
              && SameText(normalize, c.current.name, c.initial.name)
              && SameText(normalize, c.current.topic, c.initial.topic)
              && c.current.directory == c.initial.directory
              && c.current.access == c.initial.access
              && c.current.history == c.initial.history
  {
    NameCalls(c, normalize) + TopicCalls(c, normalize) + DirectoryCalls(c) + AccessCalls(c) + HistoryCalls(c)
  }
}
