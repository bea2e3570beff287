/** Parsed JSON/YAML documents and JSON pointers (bank_api_parser/parsers/base_parser.py). */
module Json {
  import opened Common
  import opened Text

  datatype Json =
    | Null
    | Bool(b: bool)
    | Int(n: int)
    | Float(x: real)
    | Str(s: string)
    | Arr(items: seq<Json>)
    | Obj(entries: seq<Entry>)

  /** Object entries are in document order. */
  datatype Entry = Entry(key: string, value: Json)

  const EMPTY_OBJECT := Obj([])

  /** Python truth value. */
  predicate Truthy(j: Json) {
    match j
    case Null => false
    case Bool(b) => b
    case Int(n) => n != 0
    case Float(x) => x != 0.0
    case Str(s) => s != ""
    case Arr(items) => items != []
    case Obj(entries) => entries != []
  }

  /** Nothing, false, zero and whatever is empty; everything else is true. */
  lemma FalsyIff(j: Json)
    ensures !Truthy(j) <==> j in {Null, Bool(false), Int(0), Float(0.0), Str(""), Arr([]), Obj([])}
  {
  }

  function Lookup(entries: seq<Entry>, key: string): (r: Option<Json>)
    ensures r.Some? ==> Entry(key, r.value) in entries
  {
    if entries == [] then None
    else if entries[0].key == key then
      assert entries[0] == Entry(key, entries[0].value);
      Some(entries[0].value)
    else Lookup(entries[1..], key)
  }

  predicate Has(entries: seq<Entry>, key: string) {
    Lookup(entries, key).Some?
  }

  /** `d.get(key, default)`. */
  function Get(entries: seq<Entry>, key: string, default: Json): Json {
    var v := Lookup(entries, key);
    if v.None? then default else v.value
  }

  // ---------------------------------------------------------------- strings

  /** `s.replace(from, to)` for a two-character `from` and a one-character `to`. */
  function ReplacePair(s: string, first: char, second: char, to: char): string {
    if |s| < 2 then s
    else if s[0] == first && s[1] == second then [to] + ReplacePair(s[2..], first, second, to)
    else [s[0]] + ReplacePair(s[1..], first, second, to)
  }

  /** `s.replace(from, to)` for a one-character `from`. */
  function ReplaceChar(s: string, from: char, to: string): string {
    if s == "" then ""
    else (if s[0] == from then to else [s[0]]) + ReplaceChar(s[1..], from, to)
  }

  // ---------------------------------------------------------------- JSON pointers

  /** A reference token as RFC 6901 section 3 writes it. */
  function Escape(key: string): string {
    ReplaceChar(ReplaceChar(key, '~', "~0"), '/', "~1")
  }

  /** First `~1`, then `~0`, as RFC 6901 section 4 asks. */
  function Unescape(part: string): string {
    ReplacePair(ReplacePair(part, '~', '1', '/'), '~', '0', '~')
  }

  /** Follow the parts from `node`; anything that is not an object on the way, or at the end, gives {}. */
  function Walk(node: Json, parts: seq<string>): Json
    decreases parts
  {
    if !node.Obj? then EMPTY_OBJECT
    else if parts == [] then node
    else Walk(Get(node.entries, Unescape(parts[0]), EMPTY_OBJECT), parts[1..])
  }

  /** What a `#/a/b` reference points to; its first two characters are dropped unseen. */
  function Pointed(ref: string, spec: Json): Json {
    Walk(spec, Split(if |ref| < 2 then "" else ref[2..], '/'))
  }

  method ResolvePointer(ref: string, spec: Json) returns (result: Json)
    ensures result == Pointed(ref, spec)
    ensures result.Obj?
  {
    var parts := Split(if |ref| < 2 then "" else ref[2..], '/');
    var node := spec;
    for n := 0 to |parts|
      invariant Walk(spec, parts) == Walk(node, parts[n..])
    {
      assert parts[n..][0] == parts[n] && parts[n..][1..] == parts[n + 1..];
      if node.Obj? {
        node := Get(node.entries, Unescape(parts[n]), EMPTY_OBJECT);
      } else {
        return EMPTY_OBJECT;
      }
    }
    result := if node.Obj? then node else EMPTY_OBJECT;
  }

  // ---------------------------------------------------------------- the pointer round trip

  /** Replacing "~1" in a text where every "~" is doubled up as "~0" and every "/" as "~1". */
  lemma {:induction false} UnescapeEscape(key: string)
    ensures Unescape(Escape(key)) == key
  {
    SlashBack(key);
    TildeBack(key);
  }

  lemma {:induction false} ReplaceCharConcat(a: string, b: string, from: char, to: string)
    ensures ReplaceChar(a + b, from, to) == ReplaceChar(a, from, to) + ReplaceChar(b, from, to)
  {
    if a == "" {
      assert a + b == b;
    } else {
      ReplaceCharConcat(a[1..], b, from, to);
      assert (a + b)[1..] == a[1..] + b && (a + b)[0] == a[0];
      var head := if a[0] == from then to else [a[0]];
      assert head + (ReplaceChar(a[1..], from, to) + ReplaceChar(b, from, to))
          == head + ReplaceChar(a[1..], from, to) + ReplaceChar(b, from, to);
    }
  }

  lemma {:induction false} TildeBack(key: string)
    ensures ReplacePair(ReplaceChar(key, '~', "~0"), '~', '0', '~') == key
  {
    if key != "" {
      TildeBack(key[1..]);
      var rest := ReplaceChar(key[1..], '~', "~0");
      var all := ReplaceChar(key, '~', "~0");
      if key[0] == '~' {
        assert all == "~0" + rest && all[2..] == rest;
      } else {
        assert all == [key[0]] + rest && all[1..] == rest;
      }
      assert key == [key[0]] + key[1..];
    }
  }

  /** Undoing the "~1" step leaves the text with only "~0" escapes. */
  lemma {:induction false} SlashBack(key: string)
    ensures ReplacePair(Escape(key), '~', '1', '/') == ReplaceChar(key, '~', "~0")
  {
    if key != "" {
      SlashBack(key[1..]);
      var tildes := ReplaceChar(key[1..], '~', "~0");
      var rest := Escape(key[1..]);
      var head := if key[0] == '~' then "~0" else [key[0]];
      ReplaceCharConcat(head, tildes, '/', "~1");
      var all := Escape(key);
      if key[0] == '~' {
        assert ReplaceChar("~0", '/', "~1") == "~0" by {
          assert "~0"[1..] == "0" && "0"[1..] == "";
        }
        assert all == "~0" + rest;
        assert all[1..] == "0" + rest && all[1..][1..] == rest;
      } else if key[0] == '/' {
        assert ReplaceChar("/", '/', "~1") == "~1" by {
          assert "/"[1..] == "";
        }
        assert all == "~1" + rest && all[2..] == rest;
      } else {
        assert ReplaceChar([key[0]], '/', "~1") == [key[0]] by {
          assert [key[0]][1..] == "";
        }
        assert all == [key[0]] + rest && all[1..] == rest;
      }
    }
  }

  lemma {:induction false} EscapedHasNoSlash(key: string)
    ensures '/' !in Escape(key)
  {
    NoCharLeft(ReplaceChar(key, '~', "~0"), '/', "~1");
  }

  lemma {:induction false} NoCharLeft(s: string, from: char, to: string)
    requires from !in to
    ensures from !in ReplaceChar(s, from, to)
  {
    if s != "" {
      NoCharLeft(s[1..], from, to);
    }
  }

  function EscapeAll(path: seq<string>): seq<string> {
    if path == [] then [] else [Escape(path[0])] + EscapeAll(path[1..])
  }

  /** The pointer of a key path, in URI-fragment form. */
  function PointerTo(path: seq<string>): string {
    "#/" + JoinWith(EscapeAll(path), '/')
  }

  /** The node at the end of a key path through nested objects. */
  function NodeAt(node: Json, path: seq<string>): Option<Json> {
    if path == [] then Some(node)
    else if !node.Obj? then None
    else
      var v := Lookup(node.entries, path[0]);
      if v.None? then None else NodeAt(v.value, path[1..])
  }

  lemma {:induction false} EscapedPath(path: seq<string>)
    ensures |EscapeAll(path)| == |path|
    ensures forall i :: 0 <= i < |path| ==> '/' !in EscapeAll(path)[i]
  {
    if path != [] {
      EscapedHasNoSlash(path[0]);
      EscapedPath(path[1..]);
    }
  }

  /** The object at the end of a key path; {} when there is none. */
  function ObjectAt(node: Json, path: seq<string>): Json {
    var end := NodeAt(node, path);
    if end.Some? && end.value.Obj? then end.value else EMPTY_OBJECT
  }

  lemma {:induction false} WalkEscaped(node: Json, path: seq<string>)
    ensures Walk(node, EscapeAll(path)) == ObjectAt(node, path)
    decreases path
  {
    if path != [] {
      UnescapeEscape(path[0]);
      assert EscapeAll(path)[1..] == EscapeAll(path[1..]);
      if node.Obj? {
        WalkEscaped(Get(node.entries, path[0], EMPTY_OBJECT), path[1..]);
        NothingInEmpty(path[1..]);
      }
    }
  }

  lemma {:induction false} NothingInEmpty(path: seq<string>)
    ensures ObjectAt(EMPTY_OBJECT, path) == EMPTY_OBJECT
  {
  }

  /** Every pointer resolves to the object at the end of its path, and to {} where the path breaks off or ends at
      something else. */
  lemma PointerExact(spec: Json, path: seq<string>)
    requires path != []
    ensures Pointed(PointerTo(path), spec) == ObjectAt(spec, path)
  {
    var parts := EscapeAll(path);
    EscapedPath(path);
    SplitJoin(parts, '/');
    assert PointerTo(path)[2..] == JoinWith(parts, '/');
    WalkEscaped(spec, path);
  }

  /** Any keys, "~" and "/" included: the pointer of a path to an object resolves to that object. */
  lemma PointerRoundTrip(spec: Json, path: seq<string>)
    requires path != []
    requires NodeAt(spec, path).Some? && NodeAt(spec, path).value.Obj?
    ensures Pointed(PointerTo(path), spec) == NodeAt(spec, path).value
  {
    PointerExact(spec, path);
  }
}
