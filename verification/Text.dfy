/** Text helpers shared by several parts. */
module Text {

  predicate StartsWith(s: string, prefix: string) {
    |prefix| <= |s| && s[..|prefix|] == prefix
  }

  /** Python's `part in s`. */
  predicate Occurs(part: string, s: string) {
    exists i :: 0 <= i <= |s| && StartsWith(s[i..], part)
  }

  /** `s.split(c)`: always at least one part. */
  function Split(s: string, c: char): (parts: seq<string>)
    ensures parts != []
  {
    if s == "" then [""]
    else
      var rest := Split(s[1..], c);
      if s[0] == c then [""] + rest else [[s[0]] + rest[0]] + rest[1..]
  }

  function JoinWith(parts: seq<string>, c: char): string {
    if parts == [] then ""
    else if |parts| == 1 then parts[0]
    else parts[0] + [c] + JoinWith(parts[1..], c)
  }

  lemma {:induction false} SplitPiece(s: string, c: char)
    requires c !in s
    ensures Split(s, c) == [s]
  {
    if s != "" {
      assert c !in s[1..];
      SplitPiece(s[1..], c);
      assert [s[0]] + s[1..] == s;
    }
  }

  lemma {:induction false} SplitFirst(head: string, tail: string, c: char)
    requires c !in head
    ensures Split(head + [c] + tail, c) == [head] + Split(tail, c)
  {
    var s := head + [c] + tail;
    if head == "" {
      assert s[1..] == tail;
    } else {
      assert c !in head[1..];
      SplitFirst(head[1..], tail, c);
      assert s[1..] == head[1..] + [c] + tail;
      assert [head[0]] + head[1..] == head;
    }
  }

  lemma {:induction false} SplitJoin(parts: seq<string>, c: char)
    requires parts != [] && forall i :: 0 <= i < |parts| ==> c !in parts[i]
    ensures Split(JoinWith(parts, c), c) == parts
  {
    if |parts| == 1 {
      SplitPiece(parts[0], c);
    } else {
      SplitJoin(parts[1..], c);
      SplitFirst(parts[0], JoinWith(parts[1..], c), c);
    }
  }
}
