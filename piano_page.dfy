/**
 * The deterministic part of pages/piano_page.py: `PianoPage` indexes the notes
 * table (`{flag: {"key": ..., "note": ...}}`) by normalised note name into a
 * cache field filled once, resolves a note name to its `(key, flag)` pair,
 * normalises the URL flag `send_keys_piano` waits for, and `digit_note`
 * chains mark activation, resolution and typing in that order. The browser is
 * represented by the log of actions the page object asks it to perform.
 */
module Piano {
  import opened Wrappers
  import opened Text
  import BasePage

  // ---------------------------------------------------------------------------
  // Values
  // ---------------------------------------------------------------------------

  /** One value of the notes table: its `note` and `key` fields, `None` when absent. */
  datatype RawEntry = RawEntry(note: Option<string>, key: Option<string>)

  /** One value of the cache `_notes_by_note`: `{"key": key, "flag": flag}`. */
  datatype NoteEntry = NoteEntry(key: string, flag: string)

  /** The exception a page operation raises. */
  datatype Error = ValueError(message: string)

  /** What the page object asks of the browser, in order. */
  datatype Action =
    | ClickMark          // click on the "mark" button (`BTN_MARK`)
    | TypeKeys(key: string)  // `type_keys(key, timeout)` on the page body
    | ClickClear         // click on the reset button (`BTN_CLEAR`)

  type Notes = seq<(string, RawEntry)>

  const UnknownNotePrefix: string := "Nota inválida o no mapeada en JSON: "
  const EmptyFlagMessage: string := "expected_flag/expected_case vacío; no se puede validar la URL"

  /** Python truthiness of an optional string: present and non-empty. */
  predicate Truthy(s: Option<string>) {
    s.Some? && s.value != ""
  }

  /** `s or ""`. */
  function OrEmpty(s: Option<string>): string {
    if s.Some? then s.value else ""
  }

  /** How an optional string appears in an f-string: `None` prints as "None". */
  function Show(s: Option<string>): string {
    if s.Some? then s.value else "None"
  }

  // ---------------------------------------------------------------------------
  // Indexing by note name
  // ---------------------------------------------------------------------------

  /** `x.strip().lower()`. */
  function NormalizeNote(s: string): string {
    Lower(Strip(s))
  }

  /** A normalised name is unchanged by normalising it again. */
  lemma NormalizeNoteIdempotent(s: string)
    ensures NormalizeNote(NormalizeNote(s)) == NormalizeNote(s)
  {
    StripLowerStripped(s);
    LowerIdempotent(Strip(s));
  }

  /** The index key of an entry: its `note` (or "") trimmed and lower-cased. */
  function NoteKey(e: RawEntry): string {
    NormalizeNote(OrEmpty(e.note))
  }

  /** `if note and key`: the entry has a non-blank note and a truthy key. */
  predicate Indexable(e: RawEntry) {
    NoteKey(e) != "" && Truthy(e.key)
  }

  /**
   * What one pass of the loop of `_ensure_notes_loaded` stores for a table item
   * `(flag, entry)`: the entry `{key, flag}` under the note key when the entry
   * is indexable, nothing otherwise.
   */
  function Slot(item: (string, RawEntry)): Option<(string, NoteEntry)> {
    var (flag, e) := item;
    if Indexable(e) then Some((NoteKey(e), NoteEntry(e.key.value, flag))) else None
  }

  /**
   * The cache `_ensure_notes_loaded` builds from the table items in iteration
   * order: each indexable entry is stored under its note key, a later entry
   * overwriting an earlier one with the same key.
   */
  function Index(data: Notes): map<string, NoteEntry> {
    Stored(data, Slot)
  }

  /** The map built by storing the slot of each item in turn. */
  function Stored<T>(items: seq<T>, slot: T -> Option<(string, NoteEntry)>): map<string, NoteEntry> {
    if items == [] then map[]
    else
      var m := Stored(items[..|items| - 1], slot);
      var s := slot(items[|items| - 1]);
      if s.Some? then m[s.value.0 := s.value.1] else m
  }

  /** Item `i` has a slot under the key `n`. */
  predicate SlotUnder<T>(items: seq<T>, slot: T -> Option<(string, NoteEntry)>, i: int, n: string) {
    0 <= i < |items| && slot(items[i]).Some? && slot(items[i]).value.0 == n
  }

  /** Storing slots: a key is present exactly when some item has a slot under it. */
  lemma {:induction false} StoredKeys<T>(items: seq<T>, slot: T -> Option<(string, NoteEntry)>, n: string)
    ensures n in Stored(items, slot) <==> exists i :: SlotUnder(items, slot, i, n)
  {
    if items != [] {
      var last := |items| - 1;
      var init := items[..last];
      StoredKeys(init, slot, n);
      assert n in Stored(items, slot) <==> n in Stored(init, slot) || SlotUnder(items, slot, last, n);
      if n in Stored(init, slot) {
        var i :| SlotUnder(init, slot, i, n);
        assert init[i] == items[i];
        assert SlotUnder(items, slot, i, n);
      }
      if i :| SlotUnder(items, slot, i, n) && i < last {
        assert init[i] == items[i];
        assert SlotUnder(init, slot, i, n);
      }
    }
  }

  /** Storing slots: the value under a key is the one of the last item with a slot under it. */
  lemma {:induction false} StoredLastWins<T>(items: seq<T>, slot: T -> Option<(string, NoteEntry)>, i: int)
    requires 0 <= i < |items| && slot(items[i]).Some?
    requires forall j :: i < j < |items| ==> !SlotUnder(items, slot, j, slot(items[i]).value.0)
    ensures slot(items[i]).value.0 in Stored(items, slot)
    ensures Stored(items, slot)[slot(items[i]).value.0] == slot(items[i]).value.1
  {
    var last := |items| - 1;
    var init := items[..last];
    if i < last {
      assert init[i] == items[i];
      var n := slot(items[i]).value.0;
      forall j | i < j < |init| ensures !SlotUnder(init, slot, j, n) {
        assert init[j] == items[j];
        assert !SlotUnder(items, slot, j, n);
      }
      assert !SlotUnder(items, slot, last, n);
      StoredLastWins(init, slot, i);
    }
  }

  /** Storing slots: every stored pair is the slot of some item. */
  lemma {:induction false} StoredFromSlots<T>(items: seq<T>, slot: T -> Option<(string, NoteEntry)>, n: string)
    requires n in Stored(items, slot)
    ensures exists i :: 0 <= i < |items| && slot(items[i]) == Some((n, Stored(items, slot)[n]))
  {
    var last := |items| - 1;
    var init := items[..last];
    var s := slot(items[last]);
    if s.Some? && s.value.0 == n {
      assert slot(items[last]) == Some((n, Stored(items, slot)[n]));
    } else {
      StoredFromSlots(init, slot, n);
      var i :| 0 <= i < |init| && slot(init[i]) == Some((n, Stored(init, slot)[n]));
      assert init[i] == items[i];
    }
  }

  /** Storing slots: one more item stores its slot, if any, over the map of the items before it. */
  lemma StoredStep<T>(items: seq<T>, slot: T -> Option<(string, NoteEntry)>, i: int)
    requires 0 <= i < |items|
    ensures var s := slot(items[i]);
            Stored(items[..i + 1], slot) ==
              if s.Some? then Stored(items[..i], slot)[s.value.0 := s.value.1] else Stored(items[..i], slot)
  {
    assert items[..i + 1][..i] == items[..i];
  }

  /** The index holds exactly the note keys of the indexable entries. */
  lemma IndexKeys(data: Notes, n: string)
    ensures n in Index(data) <==> exists i :: SlotUnder(data, Slot, i, n)
  {
    StoredKeys(data, Slot, n);
  }

  /**
   * The entry stored under a note key is the last indexable entry with that
   * key: its key and the table flag it came from.
   */
  lemma IndexLastWins(data: Notes, i: int)
    requires 0 <= i < |data| && Indexable(data[i].1)
    requires forall j :: i < j < |data| ==> !SlotUnder(data, Slot, j, NoteKey(data[i].1))
    ensures NoteKey(data[i].1) in Index(data)
    ensures Index(data)[NoteKey(data[i].1)] == NoteEntry(data[i].1.key.value, data[i].0)
  {
    StoredLastWins(data, Slot, i);
  }

  /** What a slot holds: a normalised, non-empty note key and a non-empty key. */
  lemma SlotWellFormed(item: (string, RawEntry))
    ensures Slot(item).Some? <==> Indexable(item.1)
    ensures Slot(item).Some? ==> var (n, entry) := Slot(item).value;
              n != "" && NormalizeNote(n) == n && entry.key != "" && entry.flag == item.0
  {
    NormalizeNoteIdempotent(OrEmpty(item.1.note));
  }

  /** Every stored note key is normalised and non-empty, and every stored key is non-empty. */
  lemma IndexWellFormed(data: Notes, n: string)
    requires n in Index(data)
    ensures n != "" && NormalizeNote(n) == n && Index(data)[n].key != ""
  {
    StoredFromSlots(data, Slot, n);
    var i :| 0 <= i < |data| && Slot(data[i]) == Some((n, Index(data)[n]));
    SlotWellFormed(data[i]);
  }

  // ---------------------------------------------------------------------------
  // Resolution
  // ---------------------------------------------------------------------------

  /**
   * What `_resolve_note` returns on a loaded cache: the stored `(key, flag)` of
   * the trimmed, lower-cased name (`None` read as ""), or a `ValueError` whose
   * message quotes the name as given.
   */
  function Resolve(index: map<string, NoteEntry>, noteName: Option<string>): Result<(string, string), Error>
  {
    var noteKey := NormalizeNote(OrEmpty(noteName));
    if noteKey !in index then Failure(ValueError(UnknownNotePrefix + Show(noteName)))
    else Success((index[noteKey].key, index[noteKey].flag))
  }

  /**
   * Resolving against the indexed table: success exactly when some indexable
   * entry has the name's note key, and then the pair is the key and the flag of
   * the last such entry; otherwise the error quotes the original name.
   */
  lemma ResolveMeaning(data: Notes, noteName: Option<string>)
    ensures var n := NormalizeNote(OrEmpty(noteName));
            Resolve(Index(data), noteName).Success? <==> exists i :: SlotUnder(data, Slot, i, n)
    ensures Resolve(Index(data), noteName).Failure? ==>
              Resolve(Index(data), noteName).error.message == UnknownNotePrefix + Show(noteName)
  {
    IndexKeys(data, NormalizeNote(OrEmpty(noteName)));
  }

  lemma ResolveLastEntry(data: Notes, noteName: Option<string>, i: int)
    requires 0 <= i < |data| && Indexable(data[i].1) && NoteKey(data[i].1) == NormalizeNote(OrEmpty(noteName))
    requires forall j :: i < j < |data| ==> !SlotUnder(data, Slot, j, NoteKey(data[i].1))
    ensures Resolve(Index(data), noteName) == Success((data[i].1.key.value, data[i].0))
  {
    IndexLastWins(data, i);
  }

  /** Names that agree after trimming and lower-casing resolve alike. */
  lemma ResolveIgnoresCaseAndBlanks(index: map<string, NoteEntry>, a: string, b: string)
    requires NormalizeNote(a) == NormalizeNote(b)
    ensures Resolve(index, Some(a)).Success? == Resolve(index, Some(b)).Success?
    ensures Resolve(index, Some(a)).Success? ==> Resolve(index, Some(a)) == Resolve(index, Some(b))
  {
  }

  /** `" C4 "` and `"c4"` have the same note key, so they resolve alike. */
  lemma ExampleSpacedUpperCase()
    ensures NormalizeNote(" C4 ") == NormalizeNote("c4")
  {
    var a := " C4 ";
    var b := "c4";
    assert LeadingSpaces(a) == 1 && TrailingSpaces(a[1..]) == 1;
    assert Strip(a) == "C4";
    StripNoSpace(b);
    assert Lower(b) == b;
  }

  /** A missing or blank name never resolves against the indexed table. */
  lemma BlankNameFails(data: Notes, noteName: Option<string>)
    requires AllSpace(OrEmpty(noteName))
    ensures Resolve(Index(data), noteName).Failure?
  {
    var n := NormalizeNote(OrEmpty(noteName));
    assert Strip(OrEmpty(noteName)) == [];
    if n in Index(data) {
      IndexWellFormed(data, n);
    }
  }

  // ---------------------------------------------------------------------------
  // The flag send_keys_piano validates
  // ---------------------------------------------------------------------------

  /** `expected_flag or expected_case or ""`: the first truthy argument. */
  function ChosenFlag(expectedCase: Option<string>, expectedFlag: Option<string>): string {
    if Truthy(expectedFlag) then expectedFlag.value
    else if Truthy(expectedCase) then expectedCase.value
    else ""
  }

  /** `(expected_flag or expected_case or "").strip().lstrip("?")`. */
  function ExpectedFlag(expectedCase: Option<string>, expectedFlag: Option<string>): string {
    LStripChar(Strip(ChosenFlag(expectedCase, expectedFlag)), '?')
  }

  /**
   * The normalised flag is the chosen argument, trimmed, with its leading run
   * of `?` removed: it is a suffix of the trimmed argument, what was removed is
   * only question marks, it never starts with `?`, and it is empty when
   * nothing truthy was given.
   */
  lemma ExpectedFlagMeaning(expectedCase: Option<string>, expectedFlag: Option<string>)
    ensures var t := Strip(ChosenFlag(expectedCase, expectedFlag));
            var f := ExpectedFlag(expectedCase, expectedFlag);
            |f| <= |t| && f == t[|t| - |f|..] &&
            (forall k :: 0 <= k < |t| - |f| ==> t[k] == '?') &&
            (f == [] || f[0] != '?')
    ensures !Truthy(expectedCase) && !Truthy(expectedFlag) ==> ExpectedFlag(expectedCase, expectedFlag) == ""
  {
    var t := Strip(ChosenFlag(expectedCase, expectedFlag));
    var f := LStripChar(t, '?');
    assert f == ExpectedFlag(expectedCase, expectedFlag);
  }

  /**
   * A truthy `expected_flag` decides alone, even when it is only blanks: then
   * the flag is empty although `expected_case` may be valid.
   */
  lemma FlagArgumentWins(expectedCase: Option<string>, expectedFlag: Option<string>)
    requires Truthy(expectedFlag)
    ensures ExpectedFlag(expectedCase, expectedFlag) == ExpectedFlag(None, expectedFlag)
    ensures AllSpace(expectedFlag.value) ==> ExpectedFlag(expectedCase, expectedFlag) == ""
  {
  }

  /** A leading question mark is dropped: `"?1g"` gives the flag `1g`. */
  lemma ExampleQuestionMarkFlag()
    ensures ExpectedFlag(None, Some("?1g")) == "1g"
  {
    var a := "?1g";
    assert ChosenFlag(None, Some(a)) == a;
    StripNoSpace(a);
    assert LStripChar(a[1..], '?') == a[1..];
  }

  /** Surrounding blanks are trimmed: `" 1g "` gives the flag `1g`. */
  lemma ExampleBlankedFlag()
    ensures ExpectedFlag(Some(" 1g "), None) == "1g"
  {
    var b := " 1g ";
    assert ChosenFlag(Some(b), None) == b;
    assert LeadingSpaces(b) == 1 && TrailingSpaces(b[1..]) == 1;
    var t := Strip(b);
    assert t == b[1..3];
    assert LStripChar(t, '?') == t;
  }

  // ---------------------------------------------------------------------------
  // The page object
  // ---------------------------------------------------------------------------

  class PianoPage {
    /** The parsed items of `resources/notes_map.json`, in iteration order. */
    const notesResource: Notes
    /** `_notes_by_note`: `None` until the first load. */
    var notesByNote: Option<map<string, NoteEntry>>
    /** How many times the table has been read. */
    ghost var loads: nat
    /** What has been asked of the browser so far. */
    var actions: seq<Action>

    /** The cache is empty before the one load and equal to the index after it. */
    ghost predicate Valid()
      reads this
    {
      (notesByNote.None? ==> loads == 0) &&
      (notesByNote.Some? ==> loads == 1 && notesByNote.value == Index(notesResource))
    }

    constructor (resource: Notes)
      ensures Valid()
      ensures notesResource == resource && notesByNote == None && actions == []
    {
      notesResource := resource;
      notesByNote := None;
      loads := 0;
      actions := [];
    }

    /** `_ensure_notes_loaded`: reads and indexes the table unless the cache is already set. */
    method EnsureNotesLoaded()
      requires Valid()
      modifies this
      ensures Valid()
      ensures notesByNote == Some(Index(notesResource)) && loads == 1
      ensures old(notesByNote).Some? ==> notesByNote == old(notesByNote) && loads == old(loads)
      ensures actions == old(actions)
    {
      if notesByNote.Some? {
        return;
      }
      var data := notesResource;
      notesByNote := Some(map[]);
      for i := 0 to |data|
        invariant notesByNote == Some(Index(data[..i]))
        invariant actions == old(actions) && loads == old(loads)
      {
        var (flag, entry) := data[i];
        var note := NoteKey(entry);
        var key := entry.key;
        StoredStep(data, Slot, i);
        assert Slot(data[i]) == if note != "" && Truthy(key) then Some((note, NoteEntry(key.value, flag))) else None;
        if note != "" && Truthy(key) {
          notesByNote := Some(notesByNote.value[note := NoteEntry(key.value, flag)]);
        }
      }
      assert data[..|data|] == data;
      loads := loads + 1;
    }

    /** `_resolve_note`: loads the table if needed, then looks the name up. */
    method ResolveNote(noteName: Option<string>) returns (r: Result<(string, string), Error>)
      requires Valid()
      modifies this
      ensures Valid() && notesByNote == Some(Index(notesResource)) && loads == 1
      ensures r == Resolve(Index(notesResource), noteName)
      ensures actions == old(actions)
    {
      EnsureNotesLoaded();
      var index := notesByNote.value;
      var noteKey := NormalizeNote(OrEmpty(noteName));
      if noteKey !in index {
        return Failure(ValueError(UnknownNotePrefix + Show(noteName)));
      }
      var entry := index[noteKey];
      return Success((entry.key, entry.flag));
    }

    /**
     * The part of `send_keys_piano` that does not wait on the browser: no key is
     * typed when the normalised flag is empty; otherwise the key is typed and
     * the reset button clicked.
     */
    method SendKeysPiano(key: string, expectedCase: Option<string>, expectedFlag: Option<string>)
      returns (r: Outcome<Error>)
      modifies this
      ensures var flag := ExpectedFlag(expectedCase, expectedFlag);
              if flag == "" then r == Fail(ValueError(EmptyFlagMessage)) && actions == old(actions)
              else r == Pass && actions == old(actions) + [TypeKeys(key), ClickClear]
      ensures notesByNote == old(notesByNote) && loads == old(loads)
    {
      var flag := ExpectedFlag(expectedCase, expectedFlag);
      r := TypeWithFlag(key, flag);
    }

    /** `send_keys_piano` once its flag is normalised to `flag`. */
    method TypeWithFlag(key: string, flag: string) returns (r: Outcome<Error>)
      modifies this
      ensures if flag == "" then r == Fail(ValueError(EmptyFlagMessage)) && actions == old(actions)
              else r == Pass && actions == old(actions) + [TypeKeys(key), ClickClear]
      ensures notesByNote == old(notesByNote) && loads == old(loads)
    {
      if flag == "" {
        return Fail(ValueError(EmptyFlagMessage));
      }
      actions := actions + [TypeKeys(key)];
      actions := actions + [ClickClear];
      return Pass;
    }

    /** `_ensure_mark_active`: clicks the mark exactly when its class is not "mark active". */
    method EnsureMarkActive(markClass: Option<string>)
      modifies this
      ensures actions == old(actions) + (if BasePage.NeedsMarkClick(markClass) then [ClickMark] else [])
      ensures markClass == Some(BasePage.ActiveMarkClass) ==> actions == old(actions)
      ensures notesByNote == old(notesByNote) && loads == old(loads)
    {
      if markClass != Some(BasePage.ActiveMarkClass) {
        actions := actions + [ClickMark];
      }
    }

    /**
     * `digit_note`: activate the mark, resolve the note, then type its key and
     * validate its flag. A name that does not resolve stops the run before
     * any key is typed.
     */
    method DigitNote(keyNote: Option<string>, markClass: Option<string>) returns (r: Outcome<Error>)
      requires Valid()
      modifies this
      ensures Valid() && notesByNote == Some(Index(notesResource))
      ensures var clicks := if BasePage.NeedsMarkClick(markClass) then [ClickMark] else [];
              match Resolve(Index(notesResource), keyNote)
              case Failure(e) => r == Fail(e) && actions == old(actions) + clicks
              case Success(pair) =>
                if ExpectedFlag(Some(pair.1), Some(pair.1)) == "" then
                  r == Fail(ValueError(EmptyFlagMessage)) && actions == old(actions) + clicks
                else
                  r == Pass && actions == old(actions) + clicks + [TypeKeys(pair.0), ClickClear]
    {
      EnsureMarkActive(markClass);
      var resolved := ResolveNote(keyNote);
      if resolved.Failure? {
        return Fail(resolved.error);
      }
      var (key, flag) := resolved.value;
      r := SendKeysPiano(key, Some(flag), Some(flag));
    }
  }
}
