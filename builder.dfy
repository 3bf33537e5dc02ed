/** The landing-page builder's editing state: the current configuration, a bounded undo
    history with its cursor, and the selected section. Every handler replaces the state
    wholesale, so each is a function from the old state to the new one. */
module Builder {
  import opened Wrappers
  import opened Strings
  import opened LandingConfig
  import Editor

  /** `historyIndex` is -1 while the history is empty. */
  datatype State = State(config: Config, history: seq<Config>, index: int, activeSectionId: Option<string>)

  const MaxHistory: nat := 50

  /** What every reachable state satisfies: the cursor is -1 exactly while the history is
      empty and otherwise points into it, and the history holds at most 50 entries. */
  predicate Valid(st: State) {
    -1 <= st.index < |st.history| <= MaxHistory && (st.index == -1 <==> st.history == [])
  }

  /** The current configuration is the one under the cursor. */
  predicate Synced(st: State) {
    Valid(st) && (st.index >= 0 ==> st.history[st.index] == st.config)
  }

  /** The state before the saved configuration is read. */
  function Initial(default: Config): State {
    State(default, [], -1, None)
  }

  /** The initial load: `saved` is `None` when nothing is stored, `Some(None)` when the stored
      text does not parse, and `Some(Some(c))` when it parses to `c`. */
  function Load(default: Config, saved: Option<Option<Config>>): (st: State)
    ensures Synced(st)
    ensures saved == Some(None) <==> st.index == -1
  {
    match saved
    case None => State(default, [default], 0, None)
    case Some(None) => Initial(default)
    case Some(Some(c)) => State(c, [c], 0, None)
  }

  /** `updateConfig`: with `addToHistory`, the entries after the cursor are discarded, the new
      configuration is appended, the oldest entry is dropped past 50, and the cursor moves to
      the end. */
  function UpdateConfig(st: State, c: Config, addToHistory: bool): State
    requires Valid(st)
  {
    if addToHistory then
      var kept := st.history[..st.index + 1] + [c];
      var h := if |kept| > MaxHistory then kept[1..] else kept;
      State(c, h, |h| - 1, st.activeSectionId)
    else
      st.(config := c)
  }

  lemma UpdateConfigSpec(st: State, c: Config, addToHistory: bool)
    requires Valid(st)
    ensures var r := UpdateConfig(st, c, addToHistory);
            && r.config == c && r.activeSectionId == st.activeSectionId
            && (!addToHistory ==> r.history == st.history && r.index == st.index)
            && (addToHistory ==>
                  && Synced(r) && r.index == |r.history| - 1 && r.history[r.index] == c
                  && (st.index + 1 < MaxHistory ==> r.history == st.history[..st.index + 1] + [c])
                  && (st.index + 1 == MaxHistory ==> r.history == st.history[1..] + [c]))
  {
  }

  /** `undo`: steps back one entry unless the cursor is at the start. */
  function Undo(st: State): State
    requires Valid(st)
  {
    if st.index > 0 then st.(index := st.index - 1, config := st.history[st.index - 1]) else st
  }

  /** `redo`: steps forward one entry unless the cursor is at the end. */
  function Redo(st: State): State
    requires Valid(st)
  {
    if st.index < |st.history| - 1 then st.(index := st.index + 1, config := st.history[st.index + 1]) else st
  }

  /** Undo and redo move the cursor by one within the history, keep the history, and leave the
      state synced; at either end they change nothing. */
  lemma UndoRedoSpec(st: State)
    requires Valid(st)
    ensures var u := Undo(st);
            && (st.index <= 0 ==> u == st)
            && (st.index > 0 ==> u.index == st.index - 1 && u.history == st.history && Synced(u))
    ensures var r := Redo(st);
            && (st.index == |st.history| - 1 ==> r == st)
            && (st.index < |st.history| - 1 ==> r.index == st.index + 1 && r.history == st.history && Synced(r))
  {
  }

  /** Redo after an undo gives back the state before the undo, and the other way round. */
  lemma UndoThenRedo(st: State)
    requires Synced(st)
    ensures st.index > 0 ==> Redo(Undo(st)) == st
    ensures st.index < |st.history| - 1 ==> Undo(Redo(st)) == st
  {
  }

  /** An edit recorded in the history can be undone: the configuration returns to the one
      before the edit, even when the oldest entry had to be dropped. */
  lemma UndoRevertsUpdate(st: State, c: Config)
    requires Synced(st) && st.index >= 0
    ensures Undo(UpdateConfig(st, c, true)).config == st.config
  {
  }

  // ----- section handlers -----

  function AddSection(st: State, t: SectionType, now: nat): State
    requires Valid(st)
  {
    var c := Editor.AddSection(st.config, t, now);
    UpdateConfig(st, c, true).(activeSectionId := Some(Editor.NewSection(t, now).id))
  }

  function DeleteSection(st: State, id: string): State
    requires Valid(st)
  {
    var r := UpdateConfig(st, Editor.RemoveSection(st.config, id), true);
    if st.activeSectionId == Some(id) then r.(activeSectionId := None) else r
  }

  /** A move past either end leaves the state as it is, history included. */
  function MoveSection(st: State, index: int, up: bool): State
    requires Valid(st) && 0 <= index < |st.config.sections|
  {
    match Editor.MoveSection(st.config, index, up)
    case None => st
    case Some(c) => UpdateConfig(st, c, true)
  }

  function ToggleVisibility(st: State, id: string): State
    requires Valid(st)
  {
    UpdateConfig(st, Editor.ToggleVisibility(st.config, id), true)
  }

  lemma AddKeepsSynced(st: State, t: SectionType, now: nat)
    requires Synced(st)
    ensures var r := AddSection(st, t, now);
            && Synced(r) && r.history[r.index] == Editor.AddSection(st.config, t, now)
            && r.activeSectionId == Some(Editor.NewSection(t, now).id)
  {
    UpdateConfigSpec(st, Editor.AddSection(st.config, t, now), true);
  }

  lemma DeleteKeepsSynced(st: State, id: string)
    requires Synced(st)
    ensures var r := DeleteSection(st, id);
            && Synced(r) && r.history[r.index] == Editor.RemoveSection(st.config, id)
            && (st.activeSectionId == Some(id) ==> r.activeSectionId == None)
            && (st.activeSectionId != Some(id) ==> r.activeSectionId == st.activeSectionId)
  {
    UpdateConfigSpec(st, Editor.RemoveSection(st.config, id), true);
  }

  lemma MoveKeepsSynced(st: State, index: int, up: bool)
    requires Synced(st) && 0 <= index < |st.config.sections|
    ensures var r := MoveSection(st, index, up);
            && Synced(r)
            && (Editor.MoveSection(st.config, index, up).None? ==> r == st)
            && (Editor.MoveSection(st.config, index, up).Some? ==>
                  r.history[r.index] == Editor.MoveSection(st.config, index, up).value)
  {
    if Editor.MoveSection(st.config, index, up).Some? {
      UpdateConfigSpec(st, Editor.MoveSection(st.config, index, up).value, true);
    }
  }

  /** Every handler keeps the state valid and synced; each one that changes the configuration
      records it as the newest history entry, and undo then restores the previous one. */
  lemma HandlersKeepSynced(st: State, t: SectionType, now: nat, id: string, index: int, up: bool)
    requires Synced(st)
    ensures var r := AddSection(st, t, now);
            && Synced(r) && r.history[r.index] == Editor.AddSection(st.config, t, now)
            && r.activeSectionId == Some(Editor.NewSection(t, now).id)
    ensures var r := DeleteSection(st, id);
            && Synced(r) && r.history[r.index] == Editor.RemoveSection(st.config, id)
            && (st.activeSectionId == Some(id) ==> r.activeSectionId == None)
            && (st.activeSectionId != Some(id) ==> r.activeSectionId == st.activeSectionId)
    ensures var r := ToggleVisibility(st, id);
            Synced(r) && r.history[r.index] == Editor.ToggleVisibility(st.config, id)
    ensures 0 <= index < |st.config.sections| ==>
            var r := MoveSection(st, index, up);
            && Synced(r)
            && (Editor.MoveSection(st.config, index, up).None? ==> r == st)
            && (Editor.MoveSection(st.config, index, up).Some? ==>
                  r.history[r.index] == Editor.MoveSection(st.config, index, up).value)
    ensures st.index >= 0 ==> Undo(ToggleVisibility(st, id)).config == st.config
  {
    AddKeepsSynced(st, t, now);
    DeleteKeepsSynced(st, id);
    UpdateConfigSpec(st, Editor.ToggleVisibility(st.config, id), true);
    if 0 <= index < |st.config.sections| {
      MoveKeepsSynced(st, index, up);
    }
    if st.index >= 0 {
      UndoRevertsUpdate(st, Editor.ToggleVisibility(st.config, id));
    }
  }

  /** A new section's id has no upper-case letter, and holds the type name's letters, a
      hyphen and the timestamp's digits. */
  lemma NewSectionId(t: SectionType, now: nat)
    ensures var id := Editor.NewSection(t, now).id;
            && |id| == |TypeName(t)| + 1 + |NatToString(now)|
            && id[|TypeName(t)|] == '-'
            && forall i :: 0 <= i < |id| ==> !IsUpperAscii(id[i])
  {
    var id := Editor.NewSection(t, now).id;
    var lt := Lower(TypeName(t));
    forall i | 0 <= i < |id| ensures !IsUpperAscii(id[i]) {
      if i < |lt| {
        assert id[i] == lt[i];
      } else if i > |lt| {
        assert id[i] == NatToString(now)[i - |lt| - 1];
      }
    }
  }
}
