/** Those who read the stored text of a field change: the history page and the digest
    (frontend/src/pages/Changes.tsx, app/notify_format.py). */
module FieldReaders {
  import opened Ordering
  import opened Text
  import opened Diff
  import opened FieldText

  // ---------------------------------------------------------------- the readers

  /** What Python's `strip` and JavaScript's `trim` take off. */
  const PYTHON_BLANKS: set<char> := {
    '\t', '\n', '\U{0B}', '\U{0C}', '\r', '\U{1C}', '\U{1D}', '\U{1E}', '\U{1F}', ' ', '\U{85}', '\U{A0}', '\U{1680}',
    '\U{2000}', '\U{2001}', '\U{2002}', '\U{2003}', '\U{2004}', '\U{2005}', '\U{2006}', '\U{2007}', '\U{2008}',
    '\U{2009}', '\U{200A}', '\U{2028}', '\U{2029}', '\U{202F}', '\U{205F}', '\U{3000}'}
  const SCRIPT_BLANKS: set<char> :=
    PYTHON_BLANKS - {'\U{1C}', '\U{1D}', '\U{1E}', '\U{1F}', '\U{85}'} + {'\U{FEFF}'}

  function TrimStart(s: string, blanks: set<char>): string {
    if s != "" && s[0] in blanks then TrimStart(s[1..], blanks) else s
  }

  function TrimEnd(s: string, blanks: set<char>): string {
    if s != "" && s[|s| - 1] in blanks then TrimEnd(s[..|s| - 1], blanks) else s
  }

  function Strip(s: string, blanks: set<char>): string {
    TrimEnd(TrimStart(s, blanks), blanks)
  }

  function StripAll(parts: seq<string>, blanks: set<char>): seq<string> {
    if parts == [] then [] else [Strip(parts[0], blanks)] + StripAll(parts[1..], blanks)
  }

  /** The text taken apart at its commas; both readers start like this. */
  function Chips(text: string, blanks: set<char>): seq<string> {
    if text == "" then [] else StripAll(Split(text, ','), blanks)
  }

  /** The names on the chips; the mark in front is not part of the name, and an empty chip names nothing. */
  function NamesOn(chips: seq<string>): seq<string> {
    if chips == [] then []
    else if chips[0] == "" then NamesOn(chips[1..])
    else [chips[0][1..]] + NamesOn(chips[1..])
  }

  /** As `NamesOn`, but every "-" in front goes. */
  function NamesWithoutDashes(chips: seq<string>): seq<string> {
    if chips == [] then []
    else if chips[0] == "" then NamesWithoutDashes(chips[1..])
    else [TrimStart(chips[0], {'-'})] + NamesWithoutDashes(chips[1..])
  }

  function PageNames(text: string): seq<string> {
    NamesOn(Chips(text, SCRIPT_BLANKS))
  }

  function DigestAdded(text: string): seq<string> {
    NamesOn(Chips(text, PYTHON_BLANKS))
  }

  function DigestRemoved(text: string): seq<string> {
    NamesWithoutDashes(Chips(text, PYTHON_BLANKS))
  }

  // ---------------------------------------------------------------- what the readers get right

  predicate Plain(name: string, blanks: set<char>) {
    ',' !in name && (name == "" || name[|name| - 1] !in blanks)
  }

  ghost predicate AllPlain(names: seq<string>, blanks: set<char>) {
    forall n :: n in names ==> Plain(n, blanks)
  }

  function WithMark(mark: char, names: seq<string>): seq<string> {
    if names == [] then [] else [[mark] + names[0]] + WithMark(mark, names[1..])
  }

  /** The blanks hold the one after a separator, and neither a mark nor a comma. */
  ghost predicate Usable(mark: char, blanks: set<char>) {
    ' ' in blanks && mark !in blanks && mark != ','
  }

  lemma BlanksAreUsable()
    ensures Usable('+', PYTHON_BLANKS) && Usable('-', PYTHON_BLANKS)
    ensures Usable('+', SCRIPT_BLANKS) && Usable('-', SCRIPT_BLANKS)
    ensures 'a' !in PYTHON_BLANKS && 'a' !in SCRIPT_BLANKS
  {
  }

  lemma StripMarked(mark: char, name: string, blanks: set<char>)
    requires Usable(mark, blanks) && Plain(name, blanks)
    ensures Strip([mark] + name, blanks) == [mark] + name
  {
    var s := [mark] + name;
    assert s[|s| - 1] == if name == "" then mark else name[|name| - 1];
  }

  /** A blank in front of the text makes no difference. */
  lemma BlankInFront(text: string, blanks: set<char>)
    requires ' ' in blanks
    ensures StripAll(Split(" " + text, ','), blanks) == StripAll(Split(text, ','), blanks)
  {
    var all := " " + text;
    var parts := Split(text, ',');
    assert all[1..] == text;
    assert Split(all, ',') == [" " + parts[0]] + parts[1..];
    assert (" " + parts[0])[1..] == parts[0];
    assert TrimStart(" " + parts[0], blanks) == TrimStart(parts[0], blanks);
  }

  lemma {:induction false} ChipsOfPlain(mark: char, names: seq<string>, blanks: set<char>)
    requires Usable(mark, blanks) && AllPlain(names, blanks)
    ensures Chips(Marked(mark, names), blanks) == WithMark(mark, names)
  {
    hide Strip, Plain;
    if names != [] {
      var head := [mark] + names[0];
      assert names[0] in names;
      StripMarked(mark, names[0], blanks);
      NoCommaIn(mark, names[0], blanks);
      if |names| == 1 {
        SplitPiece(head, ',');
        assert Marked(mark, names) == head;
        OneChip(head, blanks);
      } else {
        var rest := Marked(mark, names[1..]);
        ChipsOfPlain(mark, names[1..], blanks);
        SplitFirst(head, " " + rest, ',');
        assert Marked(mark, names) == head + [','] + (" " + rest);
        BlankInFront(rest, blanks);
        MoreChips(head, Split(" " + rest, ','), blanks);
      }
    }
  }

  lemma NoCommaIn(mark: char, name: string, blanks: set<char>)
    requires Usable(mark, blanks) && Plain(name, blanks)
    ensures ',' !in [mark] + name
  {
  }

  lemma OneChip(head: string, blanks: set<char>)
    ensures StripAll([head], blanks) == [Strip(head, blanks)]
  {
    assert [head][1..] == [];
  }

  lemma MoreChips(head: string, parts: seq<string>, blanks: set<char>)
    ensures StripAll([head] + parts, blanks) == [Strip(head, blanks)] + StripAll(parts, blanks)
  {
    assert ([head] + parts)[1..] == parts;
  }

  lemma {:induction false} PartHasNo(s: string, c: char, part: string)
    requires part in Split(s, c)
    ensures c !in part
  {
    if s != "" {
      var rest := Split(s[1..], c);
      if s[0] == c {
        if part != "" {
          PartHasNo(s[1..], c, part);
        }
      } else if part == [s[0]] + rest[0] {
        PartHasNo(s[1..], c, rest[0]);
      } else {
        assert part in rest[1..];
        PartHasNo(s[1..], c, part);
      }
    }
  }

  lemma {:induction false} TrimStartKeepsOut(s: string, blanks: set<char>, c: char)
    requires c !in s
    ensures c !in TrimStart(s, blanks)
  {
    if s != "" && s[0] in blanks {
      TrimStartKeepsOut(s[1..], blanks, c);
    }
  }

  lemma {:induction false} TrimEndPlain(s: string, blanks: set<char>)
    requires ',' !in s
    ensures Plain(TrimEnd(s, blanks), blanks)
  {
    if s != "" && s[|s| - 1] in blanks {
      TrimEndPlain(s[..|s| - 1], blanks);
    }
  }

  lemma {:induction false} StrippedPlain(parts: seq<string>, blanks: set<char>, chip: string)
    requires chip in StripAll(parts, blanks)
    requires forall p :: p in parts ==> ',' !in p
    ensures Plain(chip, blanks)
  {
    hide Plain, TrimStart, TrimEnd;
    if chip == Strip(parts[0], blanks) {
      TrimStartKeepsOut(parts[0], blanks, ',');
      TrimEndPlain(TrimStart(parts[0], blanks), blanks);
    } else {
      StrippedPlain(parts[1..], blanks, chip);
    }
  }

  /** Whatever the text, no chip holds a comma or ends in a blank. */
  lemma ChipIsPlain(text: string, blanks: set<char>, chip: string)
    requires chip in Chips(text, blanks)
    ensures Plain(chip, blanks)
  {
    forall p | p in Split(text, ',') ensures ',' !in p {
      PartHasNo(text, ',', p);
    }
    StrippedPlain(Split(text, ','), blanks, chip);
  }

  lemma {:induction false} MarkedMember(mark: char, names: seq<string>, name: string)
    requires name in names
    ensures [mark] + name in WithMark(mark, names)
  {
    if name != names[0] {
      MarkedMember(mark, names[1..], name);
    }
  }

  lemma PlainAfterMark(chip: string, blanks: set<char>)
    requires chip != "" && Plain(chip, blanks)
    ensures Plain(chip[1..], blanks)
  {
  }

  /** The chips are the marked names, in order, exactly when no name holds a comma or ends in a blank. */
  lemma ChipsAreNamesIff(mark: char, names: seq<string>, blanks: set<char>)
    requires Usable(mark, blanks)
    ensures Chips(Marked(mark, names), blanks) == WithMark(mark, names) <==> AllPlain(names, blanks)
  {
    if AllPlain(names, blanks) {
      ChipsOfPlain(mark, names, blanks);
    }
    if Chips(Marked(mark, names), blanks) == WithMark(mark, names) {
      forall n | n in names ensures Plain(n, blanks) {
        MarkedMember(mark, names, n);
        ChipIsPlain(Marked(mark, names), blanks, [mark] + n);
        PlainAfterMark([mark] + n, blanks);
        assert ([mark] + n)[1..] == n;
      }
    }
  }

  /** No name begins with the dash that the digest takes off. */
  ghost predicate NoDashInFront(names: seq<string>) {
    forall n :: n in names ==> n == "" || n[0] != '-'
  }

  lemma {:induction false} NamesBack(mark: char, names: seq<string>)
    ensures NamesOn(WithMark(mark, names)) == names
  {
    if names != [] {
      NamesBack(mark, names[1..]);
      assert ([mark] + names[0])[1..] == names[0];
    }
  }

  lemma DashOff(name: string)
    requires name == "" || name[0] != '-'
    ensures TrimStart(['-'] + name, {'-'}) == name
  {
    assert (['-'] + name)[1..] == name;
  }

  lemma {:induction false} NamesBackWithoutDashes(names: seq<string>)
    requires NoDashInFront(names)
    ensures NamesWithoutDashes(WithMark('-', names)) == names
  {
    if names != [] {
      assert names[0] in names;
      DashOff(names[0]);
      NamesBackWithoutDashes(names[1..]);
    }
  }

  lemma {:induction false} NamesOnPlain(chips: seq<string>, blanks: set<char>)
    requires AllPlain(chips, blanks)
    ensures AllPlain(NamesOn(chips), blanks)
  {
    hide Plain;
    if chips != [] {
      NamesOnPlain(chips[1..], blanks);
      assert chips[0] in chips;
      if chips[0] != "" {
        PlainAfterMark(chips[0], blanks);
      }
    }
  }

  lemma {:induction false} TrimmedPlain(s: string, blanks: set<char>)
    requires Plain(s, blanks)
    ensures Plain(TrimStart(s, {'-'}), blanks)
    ensures TrimStart(s, {'-'}) == "" || TrimStart(s, {'-'})[0] != '-'
  {
    if s != "" && s[0] == '-' {
      PlainAfterMark(s, blanks);
      TrimmedPlain(s[1..], blanks);
    }
  }

  lemma {:induction false} NamesWithoutDashesPlain(chips: seq<string>, blanks: set<char>)
    requires AllPlain(chips, blanks)
    ensures AllPlain(NamesWithoutDashes(chips), blanks) && NoDashInFront(NamesWithoutDashes(chips))
  {
    hide Plain, TrimStart;
    if chips != [] {
      NamesWithoutDashesPlain(chips[1..], blanks);
      assert chips[0] in chips;
      TrimmedPlain(chips[0], blanks);
    }
  }

  lemma ChipsArePlain(text: string, blanks: set<char>)
    ensures AllPlain(Chips(text, blanks), blanks)
  {
    forall chip | chip in Chips(text, blanks) ensures Plain(chip, blanks) {
      ChipIsPlain(text, blanks, chip);
    }
  }

  /** Lists that tell the edit miss no removed and no added field. */
  lemma NothingMissed(was: MethodRecord, now: MethodRecord, removed: seq<string>, added: seq<string>)
    requires Tells(was, now, removed, added)
    ensures forall n :: n in RemovedFields(was, now) ==> n in removed
    ensures forall n :: n in AddedFields(was, now) ==> n in added
  {
    SortedMembers(was.fields - now.fields);
    SortedMembers(now.fields - was.fields);
  }

  /** The history page tells the edit exactly when no changed field holds a comma or ends in a blank. */
  lemma PageTellsEditIff(was: MethodRecord, now: MethodRecord)
    requires FieldChange(was, now).Some?
    ensures var c := FieldChange(was, now).value;
      Tells(was, now, PageNames(c.oldValue), PageNames(c.newValue))
      <==> AllPlain(RemovedFields(was, now), SCRIPT_BLANKS) && AllPlain(AddedFields(was, now), SCRIPT_BLANKS)
  {
    hide Tells, Chips, FieldChange, RemovedFields, AddedFields, Marked, Plain, SCRIPT_BLANKS;
    var c := FieldChange(was, now).value;
    var removed, added := RemovedFields(was, now), AddedFields(was, now);
    FieldSetsReplay(was, now);
    BlanksAreUsable();
    if AllPlain(removed, SCRIPT_BLANKS) && AllPlain(added, SCRIPT_BLANKS) {
      ChipsOfPlain('-', removed, SCRIPT_BLANKS);
      ChipsOfPlain('+', added, SCRIPT_BLANKS);
      NamesBack('-', removed);
      NamesBack('+', added);
    }
    if Tells(was, now, PageNames(c.oldValue), PageNames(c.newValue)) {
      NothingMissed(was, now, PageNames(c.oldValue), PageNames(c.newValue));
      ChipsArePlain(c.oldValue, SCRIPT_BLANKS);
      ChipsArePlain(c.newValue, SCRIPT_BLANKS);
      NamesOnPlain(Chips(c.oldValue, SCRIPT_BLANKS), SCRIPT_BLANKS);
      NamesOnPlain(Chips(c.newValue, SCRIPT_BLANKS), SCRIPT_BLANKS);
    }
  }

  /** The digest, before it is cut to a few names, needs one thing more: it takes every dash off a removed name. */
  lemma DigestTellsEditIff(was: MethodRecord, now: MethodRecord)
    requires FieldChange(was, now).Some?
    ensures var c := FieldChange(was, now).value;
      Tells(was, now, DigestRemoved(c.oldValue), DigestAdded(c.newValue))
      <==> AllPlain(RemovedFields(was, now), PYTHON_BLANKS) && AllPlain(AddedFields(was, now), PYTHON_BLANKS)
           && NoDashInFront(RemovedFields(was, now))
  {
    hide Tells, Chips, FieldChange, RemovedFields, AddedFields, Marked, Plain, PYTHON_BLANKS;
    var c := FieldChange(was, now).value;
    var removed, added := RemovedFields(was, now), AddedFields(was, now);
    FieldSetsReplay(was, now);
    BlanksAreUsable();
    if AllPlain(removed, PYTHON_BLANKS) && AllPlain(added, PYTHON_BLANKS) && NoDashInFront(removed) {
      ChipsOfPlain('-', removed, PYTHON_BLANKS);
      ChipsOfPlain('+', added, PYTHON_BLANKS);
      NamesBackWithoutDashes(removed);
      NamesBack('+', added);
    }
    if Tells(was, now, DigestRemoved(c.oldValue), DigestAdded(c.newValue)) {
      NothingMissed(was, now, DigestRemoved(c.oldValue), DigestAdded(c.newValue));
      ChipsArePlain(c.oldValue, PYTHON_BLANKS);
      ChipsArePlain(c.newValue, PYTHON_BLANKS);
      NamesWithoutDashesPlain(Chips(c.oldValue, PYTHON_BLANKS), PYTHON_BLANKS);
      NamesOnPlain(Chips(c.newValue, PYTHON_BLANKS), PYTHON_BLANKS);
    }
  }

  // ---------------------------------------------------------------- a lost blank

  /** With a blank at the end of a name both readers show another one. */
  lemma BlankAtEndIsLost()
    ensures PageNames(Marked('+', ["a "])) == ["a"] && DigestAdded(Marked('+', ["a "])) == ["a"]
  {
    hide PYTHON_BLANKS, SCRIPT_BLANKS;
    BlanksAreUsable();
    BlankLost(PYTHON_BLANKS);
    BlankLost(SCRIPT_BLANKS);
  }

  lemma BlankLost(blanks: set<char>)
    requires Usable('+', blanks) && 'a' !in blanks
    ensures NamesOn(Chips(Marked('+', ["a "]), blanks)) == ["a"]
  {
    assert Marked('+', ["a "]) == "+a ";
    SplitPiece("+a ", ',');
    OneChip("+a ", blanks);
    assert TrimStart("+a ", blanks) == "+a ";
    var t := "+a ";
    assert t[|t| - 1] == ' ' && t[..|t| - 1] == "+a";
    assert TrimEnd("+a", blanks) == "+a";
    assert TrimEnd(t, blanks) == "+a";
    assert Chips(t, blanks) == ["+a"];
    assert ["+a"][1..] == [] && "+a"[1..] == "a";
  }
}
