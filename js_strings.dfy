/** The JavaScript string operations the route handlers rely on. */
module JsStrings {
  import opened Common

  /**
   * JavaScript truthiness of an optional string: the falsy strings are
   * exactly `undefined`/`null` and "".
   */
  function Truthy(s: Option<string>): (t: bool)
    ensures t <==> s != None && s != Some("")
  {
    s.Some? && s.value != ""
  }

  /** `sub` occurs in `s` starting at position `i`. */
  predicate OccursAt(s: string, sub: string, i: int) {
    0 <= i && i + |sub| <= |s| && s[i..i + |sub|] == sub
  }

  /** `s.includes(sub)`: `sub` occurs somewhere in `s`. */
  function Includes(s: string, sub: string): (found: bool)
    ensures found <==> exists i :: OccursAt(s, sub, i)
    decreases |s|
  {
    if sub <= s then
      assert OccursAt(s, sub, 0);
      true
    else if s == [] then
      assert forall i :: !OccursAt(s, sub, i);
      false
    else
      OccursAfterHead(s, sub);
      Includes(s[1..], sub)
  }

  /** Without a match at position 0, a match in `s` is a match in its tail. */
  lemma OccursAfterHead(s: string, sub: string)
    requires s != [] && !(sub <= s)
    ensures (exists i :: OccursAt(s, sub, i)) <==> (exists j :: OccursAt(s[1..], sub, j))
  {
    forall i | OccursAt(s, sub, i) ensures OccursAt(s[1..], sub, i - 1) {
      assert i != 0;
      assert s[1..][i - 1..i - 1 + |sub|] == s[i..i + |sub|];
    }
    forall j | OccursAt(s[1..], sub, j) ensures OccursAt(s, sub, j + 1) {
      assert s[j + 1..j + 1 + |sub|] == s[1..][j..j + |sub|];
    }
  }

  /** The inverse of `Split`: the parts glued back together with `sep` between them. */
  function Join(parts: seq<string>, sep: char): string
    requires |parts| >= 1
    decreases |parts|
  {
    if |parts| == 1 then parts[0] else parts[0] + [sep] + Join(parts[1..], sep)
  }

  /**
   * `s.split(sep)` for a one-character separator: never empty, no part
   * contains the separator, and joining the parts gives back `s`.
   */
  function Split(s: string, sep: char): (parts: seq<string>)
    ensures |parts| >= 1
    ensures forall i :: 0 <= i < |parts| ==> sep !in parts[i]
    ensures Join(parts, sep) == s
    decreases |s|
  {
    if s == [] then [[]]
    else
      var rest := Split(s[1..], sep);
      if s[0] == sep then
        assert Join([[]] + rest, sep) == [sep] + Join(rest, sep) by {
          assert ([[]] + rest)[1..] == rest;
        }
        [[]] + rest
      else
        var parts := [[s[0]] + rest[0]] + rest[1..];
        assert Join(parts, sep) == [s[0]] + Join(rest, sep) by {
          if |rest| > 1 {
            assert parts[1..] == rest[1..];
          }
        }
        parts
  }

  /** `parts.pop()` on a non-empty array: its last element. */
  function Last(parts: seq<string>): (last: string)
    requires |parts| >= 1
    ensures parts == parts[..|parts| - 1] + [last]
  {
    parts[|parts| - 1]
  }

  /** The first part is a prefix of the joined string. */
  lemma JoinStartsWithFirst(parts: seq<string>, sep: char)
    requires |parts| >= 1
    ensures parts[0] <= Join(parts, sep)
  {
  }

  /** The last part is a suffix of the joined string. */
  lemma {:induction false} JoinEndsWithLast(parts: seq<string>, sep: char)
    requires |parts| >= 1
    ensures |Last(parts)| <= |Join(parts, sep)|
    ensures Join(parts, sep)[|Join(parts, sep)| - |Last(parts)|..] == Last(parts)
  {
    if |parts| > 1 {
      JoinEndsWithLast(parts[1..], sep);
      assert Last(parts[1..]) == Last(parts);
    }
  }

  /** When a separator occurs, the first part stops right before the first one. */
  lemma SplitFirstStopsAtSep(s: string, sep: char)
    ensures sep in s ==> |Split(s, sep)[0]| < |s| && s[|Split(s, sep)[0]|] == sep
  {
    var parts := Split(s, sep);
    if |parts| > 1 {
      assert s == parts[0] + ([sep] + Join(parts[1..], sep));
    }
  }

  /** With several parts, the last one comes right after a separator. */
  lemma {:induction false} JoinLastAfterSep(parts: seq<string>, sep: char)
    requires |parts| > 1
    ensures |Last(parts)| < |Join(parts, sep)|
    ensures Join(parts, sep)[|Join(parts, sep)| - |Last(parts)| - 1] == sep
  {
    var rest := parts[1..];
    assert Last(rest) == Last(parts);
    if |parts| > 2 {
      JoinLastAfterSep(rest, sep);
    } else {
      assert Join(rest, sep) == rest[0] == Last(parts);
    }
  }

  /** `split(sep).pop()` is all of `s`, or comes right after a separator. */
  lemma SplitLastAfterSep(s: string, sep: char)
    ensures var last := Last(Split(s, sep));
            |last| == |s| || (|last| < |s| && s[|s| - |last| - 1] == sep)
  {
    var parts := Split(s, sep);
    if |parts| > 1 {
      JoinLastAfterSep(parts, sep);
    }
  }
}
