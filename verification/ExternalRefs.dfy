/** What a reference resolves to, in its own document and in another file
    (bank_api_parser/parsers/base_parser.py). */
module ExternalRefs {
  import opened Text
  import opened Json
  import opened Refs

  lemma {:induction false} HashSplits(file: string, rest: string)
    requires '#' !in file
    ensures BeforeHash(file + "#" + rest) == file && AfterHash(file + "#" + rest) == rest
  {
    var s := file + "#" + rest;
    if file != "" {
      HashSplits(file[1..], rest);
      assert s[1..] == file[1..] + "#" + rest && s[0] == file[0];
      assert [file[0]] + file[1..] == file;
    } else {
      assert s[1..] == rest;
    }
  }

  lemma {:induction false} NoHash(file: string)
    requires '#' !in file
    ensures BeforeHash(file) == file && AfterHash(file) == ""
  {
    if file != "" {
      NoHash(file[1..]);
      assert [file[0]] + file[1..] == file;
    }
  }

  /** A reference into the document it stands in. */
  lemma LocalRef(w: World, path: seq<string>, context: Context, seen: set<string>)
    requires path != [] && PointerTo(path) !in seen
    ensures Resolve(w, Str(PointerTo(path)), context, seen)
         == Resolved(ObjectAt(context.spec, path), context, seen + {PointerTo(path)})
  {
    hide Pointed;
    PointerExact(context.spec, path);
  }

  /** The address a file part leads to from a document, and a file there to be had. */
  ghost predicate LeadsToFile(w: World, context: Context, file: string, target: string) {
    && file != "" && '#' !in file && context.url != ""
    && Link(context.url, file) in w.targets && w.targets[Link(context.url, file)] == target
    && target in w.docs && w.docs[target].Obj? && w.docs[target].entries != []
  }

  /** A reference with a file part and a key path gives the object at that path in that file, and references found
      in it are taken from that file on; the referring document plays no part. */
  lemma ExternalRef(w: World, file: string, path: seq<string>, target: string, context: Context, seen: set<string>)
    requires LeadsToFile(w, context, file, target) && path != [] && file + PointerTo(path) !in seen
    ensures Resolve(w, Str(file + PointerTo(path)), context, seen)
         == Resolved(ObjectAt(w.docs[target], path), Context(w.docs[target], target), seen + {file + PointerTo(path)})
  {
    hide Pointed, BeforeHash, AfterHash;
    var pointer := PointerTo(path);
    assert pointer == "#" + pointer[1..] && file + pointer == file + "#" + pointer[1..];
    HashSplits(file, pointer[1..]);
    PointerExact(w.docs[target], path);
    assert (file + pointer)[0] == file[0];
  }

  /** Without a path it is the whole file. */
  lemma WholeFile(w: World, file: string, hash: bool, target: string, context: Context, seen: set<string>)
    requires LeadsToFile(w, context, file, target) && (if hash then file + "#" else file) !in seen
    ensures var ref := if hash then file + "#" else file;
      Resolve(w, Str(ref), context, seen)
      == Resolved(w.docs[target], Context(w.docs[target], target), seen + {ref})
  {
    hide BeforeHash, AfterHash;
    NoHash(file);
    HashSplits(file, "");
    assert file + "#" + "" == file + "#" && (file + "#")[0] == file[0];
  }

  /** A file that has no known address, lies on another host, cannot be had, or is empty gives {}; the walk goes
      on in the old document. */
  lemma FileMissing(w: World, file: string, rest: string, context: Context, seen: set<string>)
    requires file != "" && '#' !in file && (rest == "" || rest[0] == '#') && file + rest !in seen
    requires !exists target :: LeadsToFile(w, context, file, target)
    ensures Resolve(w, Str(file + rest), context, seen) == Resolved(EMPTY_OBJECT, context, seen + {file + rest})
  {
    hide BeforeHash, AfterHash, Pointed;
    NoHash(file);
    var ref := file + rest;
    assert ref[0] == file[0];
    if rest == "" {
      assert ref == file;
    } else {
      assert rest == "#" + rest[1..] && ref == file + "#" + rest[1..];
      HashSplits(file, rest[1..]);
    }
    if context.url != "" && Link(context.url, file) in w.targets {
      assert !LeadsToFile(w, context, file, w.targets[Link(context.url, file)]);
    }
  }

  /** A reference already followed on the branch, or an empty one, gives {} and is not followed; a fragment
      that is no pointer gives {} as well. A reference that is not text raises. */
  lemma NotFollowed(w: World, ref: string, context: Context, seen: set<string>)
    ensures ref == "" || ref in seen ==> Resolve(w, Str(ref), context, seen) == Resolved(EMPTY_OBJECT, context, seen)
    ensures ref !in seen && ref != "" && ref[0] == '#' && (|ref| == 1 || ref[1] != '/') ==>
      Resolve(w, Str(ref), context, seen) == Resolved(EMPTY_OBJECT, context, seen + {ref})
  {
  }

  /** A schema in another file. */
  lemma FileExample(w: World, seen: set<string>)
    requires w.docs == map["v" := Obj([Entry("A", Obj([Entry("type", Str("string"))]))])]
    requires w.targets == map[Link("u", "c") := "v"] && "c#/A" !in seen
    ensures Resolve(w, Str("c#/A"), Context(EMPTY_OBJECT, "u"), seen)
         == Resolved(Obj([Entry("type", Str("string"))]), Context(w.docs["v"], "v"), seen + {"c#/A"})
  {
    hide Resolve, ObjectAt;
    var es := [Entry("A", Obj([Entry("type", Str("string"))]))];
    assert Escape("A") == "A" by {
      assert "A"[1..] == "";
    }
    assert EscapeAll(["A"]) == ["A"] by {
      assert ["A"][1..] == [];
    }
    assert PointerTo(["A"]) == "#/A" && "c" + "#/A" == "c#/A";
    assert Link("u", "c") in w.targets;
    ExternalRef(w, "c", ["A"], "v", Context(EMPTY_OBJECT, "u"), seen);
    OneStepDown(es, "A");
  }

  lemma OneStepDown(entries: seq<Entry>, key: string)
    requires Has(entries, key) && Lookup(entries, key).value.Obj?
    ensures ObjectAt(Obj(entries), [key]) == Lookup(entries, key).value
  {
    assert [key][1..] == [];
    assert NodeAt(Obj(entries), [key]) == NodeAt(Lookup(entries, key).value, []);
  }
}
