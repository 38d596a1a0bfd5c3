/** The guards of the settings page (src/pages/Settings.jsx): the theme
    switch with its fade, saving the display name, the export file, and the
    purge. Timers, the profile update and the store are events and
    parameters. */
module Settings {

  import opened Options
  import opened Text
  import Clock
  import Store

  // ---------------------------------------------------------------------
  // Theme switching

  /** The stored theme, whether a fade is running, and the theme the
      running fade will apply. */
  datatype ThemeState = ThemeState(theme: string, transitioning: bool, pending: Option<string>)

  /** `handleThemeChange`: ignored for the current theme or during a fade;
      otherwise a fade starts towards the new theme. */
  function RequestTheme(st: ThemeState, newTheme: string): (r: ThemeState)
    ensures st.theme == newTheme || st.transitioning ==> r == st
    ensures st.theme != newTheme && !st.transitioning ==> r == ThemeState(st.theme, true, Some(newTheme))
  {
    if st.theme == newTheme || st.transitioning then st
    else st.(transitioning := true, pending := Some(newTheme))
  }

  /** The first timer: the pending theme is applied; the fade goes on. */
  function ApplyFired(st: ThemeState): (r: ThemeState)
    ensures st.pending.Some? ==> r == ThemeState(st.pending.value, st.transitioning, None)
    ensures st.pending.None? ==> r == st
  {
    match st.pending
    case Some(t) => ThemeState(t, st.transitioning, None)
    case None => st
  }

  /** The second timer: the fade ends. */
  function SettleFired(st: ThemeState): (r: ThemeState)
    ensures !r.transitioning && r.theme == st.theme && r.pending == st.pending
  {
    st.(transitioning := false)
  }

  /** A request outside a fade ends, after both timers, on the requested
      theme with no fade running; requests made while it runs are lost. */
  lemma ThemeSwitchCompletes(theme: string, newTheme: string, during: seq<string>)
    requires theme != newTheme
    ensures SettleFired(ApplyFired(RequestAll(RequestTheme(ThemeState(theme, false, None), newTheme), during)))
      == ThemeState(newTheme, false, None)
  {
    RequestsDuringFade(RequestTheme(ThemeState(theme, false, None), newTheme), during);
  }

  /** Several requests in a row. */
  function RequestAll(st: ThemeState, themes: seq<string>): ThemeState
    decreases |themes|
  {
    if themes == [] then st else RequestAll(RequestTheme(st, themes[0]), themes[1..])
  }

  lemma {:induction false} RequestsDuringFade(st: ThemeState, themes: seq<string>)
    requires st.transitioning
    ensures RequestAll(st, themes) == st
  {
    if themes != [] {
      RequestsDuringFade(RequestTheme(st, themes[0]), themes[1..]);
    }
  }

  // ---------------------------------------------------------------------
  // Display name

  datatype NameEdit = NameEdit(draft: string, editing: bool)

  /** What saving the name did: the edit state afterwards, the name sent
      to the profile update, if one was sent, and the user's display name
      afterwards. */
  datatype NameOutcome = NameOutcome(edit: NameEdit, sent: Option<string>, name: string)

  /** The page's effect on `user?.displayName`: when the stored name changes
      to a truthy value, the draft is re-seeded with it. */
  function SyncDraft(draft: string, before: string, after: string): (r: string)
    ensures after != before && after != [] ==> r == after
    ensures after == before || after == [] ==> r == draft
  {
    if after != before && after != [] then after else draft
  }

  /** `handleSaveName`, followed by the name effect. `displayName` is the
      user's current name and `updated` the outcome of the profile update;
      a successful update stores the trimmed draft as the user's name. */
  function SaveName(edit: NameEdit, displayName: string, updated: bool): (r: NameOutcome)
    ensures Trim(edit.draft) == [] ==> r == NameOutcome(edit, None, displayName)
    ensures Trim(edit.draft) != [] ==> !r.edit.editing
    ensures Trim(edit.draft) != [] && edit.draft == displayName ==>
      r == NameOutcome(NameEdit(edit.draft, false), None, displayName)
    ensures Trim(edit.draft) != [] && edit.draft != displayName ==> r.sent == Some(Trim(edit.draft))
    ensures r.sent.None? || !updated ==> r.name == displayName
    ensures r.sent.Some? && updated ==> r.name == Trim(edit.draft)
    ensures r.sent.Some? && updated && Trim(edit.draft) != displayName ==> r.edit.draft == Trim(edit.draft)
    ensures r.sent.Some? && updated && Trim(edit.draft) == displayName ==> r.edit.draft == edit.draft
    ensures r.sent.Some? && !updated ==> r.edit.draft == displayName
  {
    var t := Trim(edit.draft);
    if t == [] then NameOutcome(edit, None, displayName)
    else if edit.draft == displayName then NameOutcome(NameEdit(edit.draft, false), None, displayName)
    else if updated then NameOutcome(NameEdit(SyncDraft(edit.draft, displayName, t), false), Some(t), t)
    else NameOutcome(NameEdit(displayName, false), Some(t), displayName)
  }

  /** Whenever the stored name changes, the draft afterwards shows the
      stored name; otherwise a sent draft that failed shows the old name. */
  lemma RenameSeedsDraft(edit: NameEdit, displayName: string, updated: bool)
    ensures var r := SaveName(edit, displayName, updated);
      r.name != displayName ==> r.edit.draft == r.name && r.sent == Some(r.name) && updated
  {
  }

  /** The comparison is on the untrimmed draft: the current name with a
      trailing space is sent again, as the name itself. The stored name
      does not change, so the effect does not fire and the padded draft
      stays in the field. */
  lemma PaddedNameIsResent(displayName: string)
    requires Trim(displayName) == displayName && displayName != []
    ensures SaveName(NameEdit(displayName + " ", true), displayName, true)
      == NameOutcome(NameEdit(displayName + " ", false), Some(displayName), displayName)
  {
    TrimAppendSpace(displayName);
  }

  lemma TrimAppendSpace(s: string)
    requires Trim(s) == s && s != []
    ensures Trim(s + " ") == s
  {
    var t := s + " ";
    assert !IsSpace(s[0]) && !IsSpace(s[|s| - 1]);
    assert TrimStart(t) == t by {
      assert t[0] == s[0];
    }
    assert TrimEnd(s) == s;
    assert TrimEnd(t) == s by {
      assert t[..|t| - 1] == s;
    }
    TrimIsEndOfStart(t);
  }

  lemma TrimIsEndOfStart(s: string)
    ensures Trim(s) == TrimEnd(TrimStart(s))
  {
  }

  // ---------------------------------------------------------------------
  // Export and purge

  /** The backup's file name, or `None` when there is nothing to export.
      `isoTimestamp` is `new Date().toISOString()`. */
  function ExportFileName(itemCount: nat, isoTimestamp: string): (r: Option<string>)
    ensures itemCount == 0 <==> r.None?
  {
    if itemCount == 0 then None else Some("kapsul-backup-" + BeforeFirst(isoTimestamp, 'T') + ".json")
  }

  /** For an ISO timestamp the file name carries its date part. */
  lemma ExportNamesDate(itemCount: nat, date: string, time: string)
    requires itemCount > 0 && 'T' !in date
    ensures ExportFileName(itemCount, date + "T" + time) == Some("kapsul-backup-" + date + ".json")
  {
    BeforeFirstOfConcat(date, 'T', time);
    assert date + "T" + time == date + ['T'] + time;
  }

  /** The purge's guard: the user whose items are deleted, if any. */
  function PurgeTarget(uid: Option<string>, confirmed: bool): (r: Option<string>)
    ensures r.Some? <==> Truthy(uid) && confirmed
    ensures r.Some? ==> r == uid
  {
    if Truthy(uid) && confirmed then uid else None
  }

  /** How `handleDeleteAll` ends: nothing asked, the success toast (and the
      move to `/`), or the failure toast. */
  datatype PurgeOutcome = NotAsked | Purged | PurgeFailed

  /** The purge with the store's bulk delete in hand: on success the
      user's documents are gone; a rejected delete gives the failure toast
      and changes nothing. */
  function PurgeVault(collection: seq<Store.Document>, uid: Option<string>, confirmed: bool, written: bool)
    : (r: (seq<Store.Document>, PurgeOutcome))
    ensures PurgeTarget(uid, confirmed).None? ==> r == (collection, NotAsked)
    ensures PurgeTarget(uid, confirmed).Some? && !written ==> r == (collection, PurgeFailed)
    ensures PurgeTarget(uid, confirmed).Some? && written ==>
      && r.1 == Purged
      && forall d :: d in r.0 <==> d in collection && !Store.Matches(d, uid.value, None)
  {
    match PurgeTarget(uid, confirmed)
    case None => (collection, NotAsked)
    case Some(u) =>
      var (after, outcome) := Store.DeleteAllUserItems(collection, u, written);
      (after, if outcome.Done? then Purged else PurgeFailed)
  }

  /** `handleDeleteAll` as written: it takes `deleteAllUserItems` from the
      store module's exports. A name the module does not export comes back
      `undefined`, calling it throws a TypeError, and the catch shows the
      failure toast. */
  function HandleDeleteAll(collection: seq<Store.Document>, uid: Option<string>, confirmed: bool,
                           exports: set<string>, written: bool): (r: (seq<Store.Document>, PurgeOutcome))
    ensures PurgeTarget(uid, confirmed).None? ==> r == (collection, NotAsked)
    ensures PurgeTarget(uid, confirmed).Some? && "deleteAllUserItems" !in exports ==> r == (collection, PurgeFailed)
    ensures "deleteAllUserItems" in exports ==> r == PurgeVault(collection, uid, confirmed, written)
  {
    if PurgeTarget(uid, confirmed).Some? && "deleteAllUserItems" !in exports then (collection, PurgeFailed)
    else PurgeVault(collection, uid, confirmed, written)
  }

  /** With the store module as it is, a confirmed purge never deletes
      anything and always ends in the failure toast, whatever the store
      would have done. */
  lemma ConfirmedPurgeAlwaysFails(collection: seq<Store.Document>, uid: Option<string>, written: bool)
    requires Truthy(uid)
    ensures HandleDeleteAll(collection, uid, true, Store.Exports, written) == (collection, PurgeFailed)
  {
  }

  /** The intended purge: confirmed and accepted, it empties the user's
      listing and reports success. */
  lemma ConfirmedPurgeEmptiesVault(collection: seq<Store.Document>, uid: Option<string>, isCompleted: Option<bool>)
    requires Truthy(uid)
    ensures var r := PurgeVault(collection, uid, true, true);
      r.1 == Purged && Store.UserItems(r.0, uid.value, isCompleted) == []
  {
    var listed := Store.UserItems(PurgeVault(collection, uid, true, true).0, uid.value, isCompleted);
    if listed != [] {
      Store.UserItemsMembers(PurgeVault(collection, uid, true, true).0, uid.value, isCompleted, listed[0]);
      assert false;
    }
  }
}
