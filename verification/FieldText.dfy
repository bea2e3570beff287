/** Field changes as sets and as the stored text (app/diff.py). */
module FieldText {
  import opened Common
  import opened Ordering
  import opened Text
  import opened Diff
  import opened DiffLaws

  // ---------------------------------------------------------------- the edit itself

  ghost function Elements(names: seq<string>): set<string> {
    set n | n in names
  }

  /** Old fields minus `removed` plus `added` are the new fields. */
  ghost predicate Tells(was: MethodRecord, now: MethodRecord, removed: seq<string>, added: seq<string>) {
    was.fields - Elements(removed) + Elements(added) == now.fields
  }

  function AddedFields(was: MethodRecord, now: MethodRecord): seq<string> {
    Sorted(now.fields - was.fields)
  }

  function RemovedFields(was: MethodRecord, now: MethodRecord): seq<string> {
    Sorted(was.fields - now.fields)
  }

  lemma FieldListsFit(was: MethodRecord, now: MethodRecord)
    ensures Elements(RemovedFields(was, now)) == was.fields - now.fields
    ensures Elements(AddedFields(was, now)) == now.fields - was.fields
  {
    SortedMembers(now.fields - was.fields);
    SortedMembers(was.fields - now.fields);
  }

  lemma FieldTexts(was: MethodRecord, now: MethodRecord)
    requires FieldChange(was, now).Some?
    ensures FieldChange(was, now).value.oldValue == Marked('-', RemovedFields(was, now))
    ensures FieldChange(was, now).value.newValue == Marked('+', AddedFields(was, now))
  {
    hide Sorted, Marked, MethodChange;
  }

  /** Old minus removed plus added equals new, with nothing removed that was not there and nothing added that
      was; a field change stores just these two lists, each in ascending order without repeats. */
  lemma FieldSetsReplay(was: MethodRecord, now: MethodRecord)
    ensures Tells(was, now, RemovedFields(was, now), AddedFields(was, now))
    ensures Elements(RemovedFields(was, now)) <= was.fields && Elements(AddedFields(was, now)) !! was.fields
    ensures FieldChange(was, now).Some? <==> was.fields != now.fields
    ensures FieldChange(was, now).Some? ==>
      FieldChange(was, now).value.oldValue == Marked('-', RemovedFields(was, now))
      && FieldChange(was, now).value.newValue == Marked('+', AddedFields(was, now))
  {
    hide FieldChange, RemovedFields, AddedFields, Marked, Elements;
    FieldListsFit(was, now);
    FieldChangeIffFieldsDiffer(was, now);
    if FieldChange(was, now).Some? {
      FieldTexts(was, now);
    }
  }

  // ---------------------------------------------------------------- what the text alone determines

  /** No name contains a comma, a blank and the mark in a row. */
  ghost predicate Separable(mark: char, names: seq<string>) {
    forall n :: n in names ==> !Occurs(", " + [mark], n)
  }

  /** A text of names cannot begin with one name, go on, and begin with a longer one too. */
  lemma LongerNameHoldsSeparator(mark: char, short: string, rest: string, long: string, more: string)
    requires mark != ',' && |short| < |long|
    requires short + ", " + [mark] + rest == long + more
    requires more == "" || StartsWith(more, ", " + [mark])
    ensures Occurs(", " + [mark], long)
  {
    var n := |short|;
    var text := long + more;
    assert text[n..n + 3] == ", " + [mark];
    assert text[n] == ',' && text[n + 1] == ' ' && text[n + 2] == mark;
    if more != "" {
      assert text[|long|] == more[0] == ", "[0];
    }
    assert |long| >= n + 3;
    assert long[n..][..3] == text[n..n + 3];
    assert StartsWith(long[n..], ", " + [mark]);
  }

  /** What follows the first name. */
  function After(mark: char, names: seq<string>): string {
    if |names| < 2 then "" else ", " + Marked(mark, names[1..])
  }

  lemma MarkedShape(mark: char, names: seq<string>)
    requires names != []
    ensures Marked(mark, names) == [mark] + names[0] + After(mark, names)
  {
    if |names| > 1 {
      SameTogether([mark] + names[0], ", ", Marked(mark, names[1..]));
    }
  }

  lemma SameTogether(a: string, b: string, c: string)
    ensures a + b + c == a + (b + c)
  {
  }

  lemma AfterShape(mark: char, names: seq<string>)
    ensures After(mark, names) == "" || StartsWith(After(mark, names), ", " + [mark])
  {
    if |names| > 1 {
      var rest := Marked(mark, names[1..]);
      assert rest[0] == mark;
      assert (", " + rest)[..3] == ", " + [mark];
    }
  }

  /** Where no name contains the separator with its mark, the text determines the list of names. */
  lemma {:induction false} TextTellsNames(mark: char, a: seq<string>, b: seq<string>)
    requires mark != ',' && Separable(mark, a) && Separable(mark, b)
    requires Marked(mark, a) == Marked(mark, b)
    ensures a == b
  {
    if a != [] && b != [] {
      MarkedShape(mark, a);
      MarkedShape(mark, b);
      AfterShape(mark, a);
      AfterShape(mark, b);
      SameFirst(mark, a[0], After(mark, a), b[0], After(mark, b));
      if |a| > 1 {
        assert After(mark, a)[2..] == Marked(mark, a[1..]) && After(mark, b)[2..] == Marked(mark, b[1..]);
        TextTellsNames(mark, a[1..], b[1..]);
      }
    }
  }

  lemma SameFirst(mark: char, a: string, moreA: string, b: string, moreB: string)
    requires mark != ',' && !Occurs(", " + [mark], a) && !Occurs(", " + [mark], b)
    requires moreA == "" || StartsWith(moreA, ", " + [mark])
    requires moreB == "" || StartsWith(moreB, ", " + [mark])
    requires [mark] + a + moreA == [mark] + b + moreB
    ensures a == b && moreA == moreB
  {
    hide Occurs;
    SameTogether([mark], a, moreA);
    SameTogether([mark], b, moreB);
    assert a + moreA == ([mark] + (a + moreA))[1..] == ([mark] + (b + moreB))[1..] == b + moreB;
    if |a| < |b| {
      assert moreA == ", " + [mark] + moreA[3..];
      LongerNameHoldsSeparator(mark, a, moreA[3..], b, moreB);
    } else if |b| < |a| {
      assert moreB == ", " + [mark] + moreB[3..];
      LongerNameHoldsSeparator(mark, b, moreB[3..], a, moreA);
    } else {
      assert a == (a + moreA)[..|a|] == b;
      assert moreA == (a + moreA)[|a|..] == moreB;
    }
  }

  /** With that separator inside a name the text alone does not determine the edit. */
  lemma SeparatorMakesTextAmbiguous()
    ensures Marked('+', ["a, +b"]) == Marked('+', ["a", "b"])
  {
    var split := ["a", "b"];
    assert split[1..] == ["b"];
    assert Marked('+', split[1..]) == "+b";
  }

  // ---------------------------------------------------------------- swapping the snapshots

  /** The two field changes of one key, with removed and added fields exchanged. */
  ghost predicate Exchange(c: Change, d: Change, removed: seq<string>, added: seq<string>) {
    && c.kind == OfField && d.kind == OfField && c.entityName == d.entityName
    && c.oldValue == Marked('-', removed) && c.newValue == Marked('+', added)
    && d.oldValue == Marked('-', added) && d.newValue == Marked('+', removed)
  }

  /** Swapping the methods of a key reports an edit in the other direction, with the same field lists. */
  lemma SwappedFieldChange(was: MethodRecord, now: MethodRecord)
    requires MethodKey(was) == MethodKey(now)
    ensures FieldChange(was, now).Some? <==> FieldChange(now, was).Some?
    ensures FieldChange(was, now).Some? ==>
      Exchange(FieldChange(was, now).value, FieldChange(now, was).value, RemovedFields(was, now), AddedFields(was, now))
  {
    hide Sorted, Marked, MethodKey;
  }

  ghost predicate Exchanges(c: Change, d: Change) {
    exists removed, added :: Exchange(c, d, removed, added)
  }

  ghost predicate ExchangedLists(cs: seq<Change>, ds: seq<Change>) {
    |cs| == |ds| && forall i :: 0 <= i < |cs| ==> Exchanges(cs[i], ds[i])
  }

  lemma {:induction false} EditsSwapped(
    keys: seq<string>, was: map<string, MethodRecord>, now: map<string, MethodRecord>)
    requires Keyed(was) && Keyed(now)
    ensures ExchangedLists(FieldEdits(keys, was, now), FieldEdits(keys, now, was))
  {
    hide FieldChange, MethodKey, Exchange;
    if keys != [] {
      var k := keys[|keys| - 1];
      EditsSwapped(keys[..|keys| - 1], was, now);
      if k in was && k in now {
        SwappedFieldChange(was[k], now[k]);
      }
    }
  }

  function OnlyFieldEdits(cs: seq<Change>): seq<Change> {
    if cs == [] then []
    else
      var rest, last := OnlyFieldEdits(cs[..|cs| - 1]), cs[|cs| - 1];
      if last.kind == OfField then rest + [last] else rest
  }

  lemma {:induction false} EditsOnly(others: seq<Change>, edits: seq<Change>)
    requires forall c :: c in others ==> c.kind != OfField
    requires forall c :: c in edits ==> c.kind == OfField
    ensures OnlyFieldEdits(others + edits) == edits
  {
    var all := others + edits;
    if edits != [] {
      EditsOnly(others, edits[..|edits| - 1]);
      assert all[..|all| - 1] == others + edits[..|edits| - 1];
    } else if others != [] {
      EditsOnly(others[..|others| - 1], []);
      assert all[..|all| - 1] == others[..|others| - 1] + [];
    }
  }

  lemma EditsOfChanges(a: SnapshotState, b: SnapshotState)
    ensures var was, now := IndexOf(a.methods), IndexOf(b.methods);
      OnlyFieldEdits(Changes(Some(a), b)) == FieldEdits(SplitKeys(was, now).common, was, now)
  {
    var was, now := IndexOf(a.methods), IndexOf(b.methods);
    IndexIsKeyed(a.methods);
    IndexIsKeyed(b.methods);
    SplitKeysSplits(was, now);
    hide IndexOf, SplitKeys, HiddenServices, Keyed, MethodList, Flips, FieldEdits, ServiceList;
    var s := SplitKeys(was, now);
    var services := ServiceChanges(a.services, b.services, HiddenServices(a.methods), HiddenServices(b.methods));
    ServiceChangesKind(a.services, b.services, HiddenServices(a.methods), HiddenServices(b.methods));
    ComingsAreMethods(s, was, now);
    EditMembers(s.common, was, now);
    hide ServiceChanges;
    var others, edits := services + ComingsAndGoings(s, was, now), FieldEdits(s.common, was, now);
    assert Changes(Some(a), b) == others + edits;
    EditsOnly(others, edits);
  }

  /** Swapping the snapshots reports the field edits of the same keys in the same order, each with its removed
      and added fields exchanged. */
  lemma SwappedFieldEdits(a: SnapshotState, b: SnapshotState)
    ensures ExchangedLists(OnlyFieldEdits(Changes(Some(a), b)), OnlyFieldEdits(Changes(Some(b), a)))
  {
    hide Changes, OnlyFieldEdits, FieldEdits, ExchangedLists, Keyed;
    var was, now := IndexOf(a.methods), IndexOf(b.methods);
    IndexIsKeyed(a.methods);
    IndexIsKeyed(b.methods);
    EditsOfChanges(a, b);
    EditsOfChanges(b, a);
    assert was.Keys * now.Keys == now.Keys * was.Keys;
    EditsSwapped(SplitKeys(was, now).common, was, now);
  }
}
