/** String operations the handlers rely on: Java's String.contains and StringJoiner. */
module Text {

  /** True iff `sub` occurs in `s` at some position (Java's `s.contains(sub)`). */
  ghost predicate OccursAt(s: string, sub: string, i: int)
  {
    0 <= i && i + |sub| <= |s| && s[i..i + |sub|] == sub
  }

  /** Java's `String.contains`: scans `s` left to right for an occurrence of `sub`. */
  function ContainsSubstring(s: string, sub: string): (b: bool)
    ensures b <==> exists i :: OccursAt(s, sub, i)
    decreases |s|
  {
    if |s| < |sub| then
      false
    else if s[..|sub|] == sub then
      assert OccursAt(s, sub, 0);
      true
    else
      var rest := ContainsSubstring(s[1..], sub);
      assert !OccursAt(s, sub, 0);
      assert forall i :: OccursAt(s[1..], sub, i) <==> OccursAt(s, sub, i + 1) by {
        forall i ensures OccursAt(s[1..], sub, i) <==> OccursAt(s, sub, i + 1) {
          if 0 <= i && i + |sub| <= |s| - 1 {
            assert s[1..][i..i + |sub|] == s[i + 1..i + 1 + |sub|];
          }
        }
      }
      assert forall i :: OccursAt(s, sub, i) ==> OccursAt(s[1..], sub, i - 1);
      rest
  }

  /**
   * What `StringJoiner(sep)` renders after `add` was called with each of `parts` in turn:
   * nothing for no parts, otherwise the first part first and the last part last, with a
   * separator between any two of them.
   */
  function JoinWith(sep: string, parts: seq<string>): (joined: string)
    ensures |parts| == 0 ==> joined == ""
    ensures |parts| > 0 ==> |parts[0]| <= |joined| && joined[..|parts[0]|] == parts[0]
    ensures |parts| > 0 ==> var last := parts[|parts| - 1];
      |last| <= |joined| && joined[|joined| - |last|..] == last
    ensures |parts| > 1 ==>
      && |joined| >= |parts[0]| + |sep| + |parts[|parts| - 1]|
      && joined[|parts[0]|..|parts[0]| + |sep|] == sep
    ensures |parts| == 2 ==> joined == parts[0] + sep + parts[1]
  {
    if |parts| == 0 then ""
    else if |parts| == 1 then parts[0]
    else parts[0] + sep + JoinWith(sep, parts[1..])
  }

  /**
   * `StringJoiner.add`: adding a part to a joiner that holds none renders just that part;
   * adding it to one that holds some appends the separator and the part.
   */
  lemma {:induction false} JoinWithAdd(sep: string, parts: seq<string>, part: string)
    ensures JoinWith(sep, parts + [part]) == if |parts| == 0 then part else JoinWith(sep, parts) + sep + part
    decreases |parts|, 1
  {
    if |parts| == 0 {
      assert parts + [part] == [part];
    } else if |parts| == 1 {
      assert (parts + [part])[1..] == [part];
    } else {
      JoinWithAddLong(sep, parts, part);
    }
  }

  /** The step of `JoinWithAdd` for a joiner that already holds two parts or more. */
  lemma {:induction false} JoinWithAddLong(sep: string, parts: seq<string>, part: string)
    requires |parts| >= 2
    ensures JoinWith(sep, parts + [part]) == JoinWith(sep, parts) + sep + part
    decreases |parts|, 0
  {
    var rest := parts[1..];
    var added := parts + [part];
    assert added[0] == parts[0] && added[1..] == rest + [part];
    JoinWithAdd(sep, rest, part);
    var tail := JoinWith(sep, rest);
    assert JoinWith(sep, added) == parts[0] + sep + (tail + sep + part);
    assert JoinWith(sep, parts) == parts[0] + sep + tail;
    var first := parts[0] + sep;
    ConcatAssociates(first, tail + sep, part);
    ConcatAssociates(first, tail, sep);
  }

  /** Concatenation is associative. */
  lemma ConcatAssociates(a: string, b: string, c: string)
    ensures a + (b + c) == (a + b) + c
  {
  }
}
