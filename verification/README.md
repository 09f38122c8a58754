# Room settings form of Seaglass, modelled in Dafny

Seaglass is a macOS Matrix client. Its room settings window
(`RoomSettingsController`) shows a room's name, topic, directory listing,
access rule and history visibility, lets the user edit them, and on save
sends one request to the room for each field that was changed. This project
models that form as pure functions:

- `settings.dfy` (`Settings`): the SDK's join rule, guest access, history
  visibility and directory visibility as datatypes; the part of the room
  state the form reads; the six room requests as `Call` values.
- `radio.dfy` (`Radio`): a radio group as a `seq<bool>`; the click action
  (every radio of the group off, then the sender on) as a loop; the
  first-match scan that a `switch` on the "on" state performs.
- `form.dfy` (`RoomForm`): the form's controls, the snapshot taken at load,
  the load-time encoding of settings into radios and toggles, the save-time
  decoding back, and the two click actions on the controller.
- `save.dfy` (`Saving`): the diff-based save, returning the sequence of
  requests in the controller's order (name, topic, directory, join rule,
  guest access, history).
- `properties.dfy` (`Properties`): what each request carries and when it is
  sent, the load/save round trips, and the directory-snapshot finding.

Control states are `bool` (on/off). A click's sender is a position in its
group; a position outside the group stands for a button that is not one of
the group's radios, for which the code still switches the whole group off.
A room state event the room lacks (guest access, history visibility) is
`None`, and a failed directory lookup is `None`. Swift compares the name and
topic texts up to Unicode canonical equivalence; the save takes the Unicode
normalisation as a parameter `normalize`, and two texts are the same
(`Settings.SameText`) exactly when their normal forms are equal.

## Model

| member | source | states |
|---|---|---|
| Radio.Click | Seaglass/Controller/RoomSettingsController.swift:72-84 | after a click whose sender is one of the group's radios, exactly that radio is on; a sender outside the group leaves every radio of the group off; the group keeps its size |
| Radio.Selected | Seaglass/Controller/RoomSettingsController.swift:72-84 | the group after a click: it keeps its size; for a sender in the group only the sender is on; for any other sender no radio of the group is on |
| Radio.FirstOn | Seaglass/Controller/RoomSettingsController.swift:114-130 | the scan finds no radio exactly when none is on; otherwise it finds a radio that is on, and every radio before it is off (first match in group order) |
| Radio.FirstOnOnlyOn | Seaglass/Controller/RoomSettingsController.swift:148-163 | when exactly one radio is on, the first-match scan picks that radio |
| Radio.FirstOnSelected | Seaglass/Controller/RoomSettingsController.swift:72-77 | after clicking a radio of the group, the first-match scan picks the clicked radio |
| RoomForm.EncodeAccess | Seaglass/Controller/RoomSettingsController.swift:204-206 | at most one access radio is on; "only invited" is on exactly for a non-public room; "except guests" exactly for a public room with guests forbidden; "including guests" exactly for a public room whose guests can join; none is on exactly for a public room without a guest access setting |
| RoomForm.EncodeHistory | Seaglass/Controller/RoomSettingsController.swift:212-215 | each history radio is on exactly when the room's visibility is the one it stands for (joined, invited, shared, world readable); at most one is on; none is on exactly when the room has no visibility |
| RoomForm.DirectoryToggle | Seaglass/Controller/RoomSettingsController.swift:195-201 | the toggle is on exactly when the lookup succeeded and reported the room public; a private result or a failure leaves it off |
| RoomForm.DirectoryOf | Seaglass/Controller/RoomSettingsController.swift:102 | the visibility sent for a toggle loads back as that toggle (on is public, off is private) |
| RoomForm.DecodeAccess | Seaglass/Controller/RoomSettingsController.swift:114-130 | first match in the order only invited, except guests, including guests gives (invite, forbidden), (public, forbidden), (public, canJoin); with no radio on the result is (invite, forbidden) |
| RoomForm.DecodeHistory | Seaglass/Controller/RoomSettingsController.swift:148-163 | first match in the order since joined, since invited, since selected, anyone gives joined, invited, shared, worldReadable; with no radio on the result is shared |
| RoomForm.LoadedForm | Seaglass/Controller/RoomSettingsController.swift:184-215 | name and topic show the room's values or an empty text when absent; the toggle is on exactly for a public lookup result; "only invited" is on exactly for a non-public room, "except guests" exactly for a public room with guests forbidden, "including guests" exactly for a public room whose guests can join; each history radio is on exactly when the room's visibility is the one it stands for; at most one radio of each group is on |
| RoomForm.Load | Seaglass/Controller/RoomSettingsController.swift:192-220 | the controls hold the loaded form and the snapshot records every control as loaded (the directory snapshot corrected, see Findings) |
| RoomForm.LoadAsWritten | Seaglass/Controller/RoomSettingsController.swift:25 | the controls hold the loaded form; the snapshot equals them except the directory toggle, which stays off whatever the lookup returned |
| RoomForm.ClickAccess | Seaglass/Controller/RoomSettingsController.swift:72-77 | after an access click by one of the three radios only that radio is on; another sender leaves all three off; the snapshot and every other control are unchanged |
| RoomForm.ClickHistory | Seaglass/Controller/RoomSettingsController.swift:79-84 | after a history click by one of the four radios only that radio is on; another sender leaves all four off; the snapshot and every other control are unchanged |
| Saving.AnyRadioDiffersIff | Seaglass/Controller/RoomSettingsController.swift:109-111 | the pairwise "some radio differs from its snapshot" test holds exactly when the group differs from its snapshot |
| Saving.NameCalls | Seaglass/Controller/RoomSettingsController.swift:89-93 | no request when the name is the same text as its snapshot under Swift's comparison (equal normal forms); otherwise only a set-name request with the current text |
| Saving.TopicCalls | Seaglass/Controller/RoomSettingsController.swift:95-99 | no request when the topic is the same text as its snapshot under Swift's comparison (equal normal forms); otherwise only a set-topic request with the current text |
| Saving.DirectoryCalls | Seaglass/Controller/RoomSettingsController.swift:101-107 | no request when the toggle equals its snapshot; otherwise only a directory request, public exactly when the toggle is on |
| Saving.AccessCalls | Seaglass/Controller/RoomSettingsController.swift:109-141 | no request when the access radios equal their snapshot; otherwise the decoded join rule followed by the decoded guest access |
| Saving.HistoryCalls | Seaglass/Controller/RoomSettingsController.swift:143-169 | no request when the history radios equal their snapshot; otherwise one request with the decoded visibility |
| Saving.Save | Seaglass/Controller/RoomSettingsController.swift:86-169 | one request per changed field (two for access), texts compared up to normalisation, so the save is silent exactly when both texts are the same as their snapshots and every other control equals its snapshot |
| Properties.SaveName | Seaglass/Controller/RoomSettingsController.swift:89-93 | a save sends the name exactly when the text is not the same as its snapshot under Swift's comparison (different normal forms), and only with the current text |
| Properties.EquivalentNameNotSent | Seaglass/Controller/RoomSettingsController.swift:89 | a name edited into a canonically equivalent text (same normal form, different code points) sends no name request |
| Properties.SaveTopic | Seaglass/Controller/RoomSettingsController.swift:95-99 | a save sends the topic exactly when the text is not the same as its snapshot under Swift's comparison (different normal forms), and only with the current text |
| Properties.SaveDirectory | Seaglass/Controller/RoomSettingsController.swift:101-107 | a save sends the directory visibility exactly when the toggle differs from its snapshot; what it sends is public exactly when the toggle is on |
| Properties.SaveAccess | Seaglass/Controller/RoomSettingsController.swift:109-141 | join rule and guest access are sent both or neither, exactly when an access radio differs from its snapshot, carrying the decoded values |
| Properties.SaveHistory | Seaglass/Controller/RoomSettingsController.swift:143-169 | the history visibility is sent exactly when a history radio differs from its snapshot, carrying the decoded value |
| Properties.AccessLoadSave | Seaglass/Controller/RoomSettingsController.swift:204-206 | decoding the loaded access radios gives (invite, forbidden) for a non-public room, (public, g) for a public room with guest access g, and the default for a public room without guest access |
| Properties.AccessChoiceLoadSave | Seaglass/Controller/RoomSettingsController.swift:114-126 | each of the three sendable accesses loads as exactly its own radio and decodes back to itself |
| Properties.AccessSaveLoad | Seaglass/Controller/RoomSettingsController.swift:204-206 | with exactly one access radio on, loading the decoded access reproduces the same radios |
| Properties.HistoryLoadSave | Seaglass/Controller/RoomSettingsController.swift:212-215 | loading a visibility turns on exactly one radio and decoding returns that visibility; a room without one decodes to shared |
| Properties.HistorySaveLoad | Seaglass/Controller/RoomSettingsController.swift:148-163 | with exactly one history radio on, loading the decoded visibility reproduces the same radios |
| Properties.DirectoryRoundTrip | Seaglass/Controller/RoomSettingsController.swift:198-200 | toggle and directory visibility are inverse both ways; a failed lookup gives an off toggle |
| Properties.ClickAccessSave | Seaglass/Controller/RoomSettingsController.swift:114-126 | after clicking access radio k, the decoded access is the one radio k stands for |
| Properties.ClickHistorySave | Seaglass/Controller/RoomSettingsController.swift:148-160 | after clicking history radio k, the decoded visibility is the one radio k stands for |
| Properties.LoadSaveIsSilent | Seaglass/Controller/RoomSettingsController.swift:192-220 | saving straight after a load with the snapshot as loaded issues no request, whatever the normalisation |
| Properties.LoadAsWrittenSave | Seaglass/Controller/RoomSettingsController.swift:101-107 | saving straight after the controller's own load never sends name, topic, join rule, guest access or history; it sends "public" exactly when the lookup reported the room public |
| Properties.UnlistLostAsWritten | Seaglass/Controller/RoomSettingsController.swift:195-202 | with the controller's snapshot, switching a listed room's toggle off and saving sends nothing |
| Properties.UnlistSent | Seaglass/Controller/RoomSettingsController.swift:101-102 | with the snapshot as loaded, switching a listed room's toggle off and saving sends exactly one request: private |
| Properties.LoadClickAccessSave | Seaglass/Controller/RoomSettingsController.swift:109-141 | load with the snapshot as loaded, click access radio k, save: nothing if k was already the only radio on, otherwise exactly the join rule and guest access radio k stands for |
| Properties.LoadClickHistorySave | Seaglass/Controller/RoomSettingsController.swift:143-169 | load with the snapshot as loaded, click history radio k, save: nothing if k was already the only radio on, otherwise exactly the visibility radio k stands for |

## Left out

- Segue routing to the member and alias lists (lines 53-70): navigation with no state.
- The SDK requests themselves, their asynchronous completion handlers and the console logging: each request is a `Call` value in the returned sequence.
- The timing of the asynchronous directory lookup: its result is a parameter of the load, applied at once.
- Dismissing the window when the room id is empty, closing it after a save, the `isEnabled`/`isEditable` flags, and the crashes of force-unwrapped values.
- The `mixed` control state: the code only ever sets on or off.
- Nil outlets in the radio arrays, which the optional chaining in the click actions skips: every radio is present.
- The declared initial values of the snapshot fields at lines 23-24 and 27-34, which every load overwrites; they survive only when the room id is empty and the window is dismissed. The directory snapshot of line 25 is never overwritten and is modelled (`RoomForm.LoadAsWritten`, see Findings).
- Unicode normalisation itself: Swift's canonical-equivalence comparison of the name and topic texts is modelled through the `normalize` parameter, which the model does not define.
- Join rules other than public: the load reads only whether the rule is public, so invite, private and knock all load as "only invited".
- RoomForm.ClickAccess: a sender that is not one of the three access radios is still switched on by the code (line 76); that button lies outside the form's access group and its state is not modelled.
- RoomForm.ClickHistory: a sender that is not one of the four history radios is still switched on by the code (line 83); that button lies outside the form's history group and its state is not modelled.
- Radio.Click: states the sender's group; the state of a sender that is not one of the group's radios (it is switched on) lies outside the group and is not modelled.

## Findings

| source | as written | input that shows it | evidently intended | confidence | as-written member | corrected member |
|---|---|---|---|---|---|---|
| Seaglass/Controller/RoomSettingsController.swift:25 | the directory snapshot keeps its declared value, off, while the lookup callback sets the toggle on for a room listed in the directory | a room listed in the directory: switch the toggle off and save; toggle and snapshot are both off, so no request is sent and the room stays listed (and an unedited save re-sends "public") | the snapshot records the toggle as loaded, so switching it off sends "private" and an unedited save sends nothing | not executed; high | Properties.UnlistLostAsWritten | Properties.UnlistSent |
