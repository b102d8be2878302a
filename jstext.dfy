/**
 * The JavaScript string operations the task store and the setup scripts rely on:
 * `trim`, `split`, `join`, `includes`, `startsWith`, `toLowerCase` and the
 * `split(token).join(value)` replacement idiom. Strings are sequences of characters.
 */
module JsText {

  /** The characters `String.prototype.trim` removes: white space and line terminators. */
  predicate IsSpace(c: char) {
    || c == '\t' || c == '\n' || c == '\U{000B}' || c == '\U{000C}' || c == '\r' || c == ' '
    || c == '\U{00A0}' || c == '\U{1680}' || ('\U{2000}' <= c <= '\U{200A}')
    || c == '\U{2028}' || c == '\U{2029}' || c == '\U{202F}' || c == '\U{205F}'
    || c == '\U{3000}' || c == '\U{FEFF}'
  }

  /** Drops leading white space: the result is the longest suffix that does not start with it. */
  function TrimStart(s: string): (r: string)
    ensures |r| <= |s| && r == s[|s| - |r|..]
    ensures forall k :: 0 <= k < |s| - |r| ==> IsSpace(s[k])
    ensures r == [] || !IsSpace(r[0])
  {
    if s != [] && IsSpace(s[0]) then TrimStart(s[1..]) else s
  }

  /** Drops trailing white space: the result is the longest prefix that does not end with it. */
  function TrimEnd(s: string): (r: string)
    ensures |r| <= |s| && r == s[..|r|]
    ensures forall k :: |r| <= k < |s| ==> IsSpace(s[k])
    ensures r == [] || !IsSpace(r[|r| - 1])
  {
    if s != [] && IsSpace(s[|s| - 1]) then TrimEnd(s[..|s| - 1]) else s
  }

  /** `s.trim()`: the result neither starts nor ends with white space. */
  function Trim(s: string): (r: string)
    ensures r == [] || (!IsSpace(r[0]) && !IsSpace(r[|r| - 1]))
  {
    var t := TrimStart(s);
    var r := TrimEnd(t);
    assert r != [] ==> r[0] == t[0];
    r
  }

  /** A string that neither starts nor ends with white space is its own trim. */
  lemma TrimUnpadded(s: string)
    requires s == [] || (!IsSpace(s[0]) && !IsSpace(s[|s| - 1]))
    ensures Trim(s) == s
  {
  }

  predicate StartsWith(s: string, prefix: string) {
    |prefix| <= |s| && s[..|prefix|] == prefix
  }

  /** `p` occurs in `s` starting at index `i`. */
  predicate OccursAt(s: string, p: string, i: nat) {
    i + |p| <= |s| && s[i..i + |p|] == p
  }

  /** `s.includes(p)`: `p` occurs somewhere in `s` (the empty string occurs everywhere). */
  function Contains(s: string, p: string): (r: bool)
    ensures r <==> exists i: nat :: OccursAt(s, p, i)
    decreases |s|
  {
    if StartsWith(s, p) then
      assert OccursAt(s, p, 0);
      true
    else if s == [] then false
    else
      var r := Contains(s[1..], p);
      assert r ==> exists i: nat :: OccursAt(s, p, i) by {
        if r {
          var i: nat :| OccursAt(s[1..], p, i);
          assert s[1..][i..i + |p|] == s[i + 1..i + 1 + |p|];
          assert OccursAt(s, p, i + 1);
        }
      }
      assert (exists i: nat :: OccursAt(s, p, i)) ==> r by {
        if exists i: nat :: OccursAt(s, p, i) {
          var i: nat :| OccursAt(s, p, i);
          assert i != 0;
          assert s[1..][i - 1..i - 1 + |p|] == s[i..i + |p|];
          assert OccursAt(s[1..], p, i - 1);
        }
      }
      r
  }

  /** ASCII upper-case letters map to lower case; every other character is kept. */
  function LowerChar(c: char): char {
    if 'A' <= c <= 'Z' then (c as int + 32) as char else c
  }

  /** `s.toLowerCase()`, for the ASCII letters. */
  function ToLower(s: string): (r: string)
    ensures |r| == |s|
  {
    seq(|s|, i requires 0 <= i < |s| => LowerChar(s[i]))
  }

  /** `s.split(sep)` for a non-empty separator, cutting at each occurrence from left to right. */
  function SplitOn(s: string, sep: string): (parts: seq<string>)
    requires sep != ""
    ensures |parts| >= 1
    decreases |s|
  {
    if |s| < |sep| then [s]
    else if s[..|sep|] == sep then [""] + SplitOn(s[|sep|..], sep)
    else
      var rest := SplitOn(s[1..], sep);
      [[s[0]] + rest[0]] + rest[1..]
  }

  /** `s.split(sep)`; the empty separator splits into single characters. */
  function Split(s: string, sep: string): seq<string> {
    if sep == "" then seq(|s|, i requires 0 <= i < |s| => [s[i]]) else SplitOn(s, sep)
  }

  /** `parts.join(sep)` */
  function Join(parts: seq<string>, sep: string): string
    decreases |parts|
  {
    if |parts| == 0 then ""
    else if |parts| == 1 then parts[0]
    else parts[0] + sep + Join(parts[1..], sep)
  }

  lemma JoinConsEmpty(rest: seq<string>, sep: string)
    requires |rest| >= 1
    ensures Join([""] + rest, sep) == sep + Join(rest, sep)
  {
    assert ([""] + rest)[1..] == rest;
  }

  lemma JoinConsChar(c: char, rest: seq<string>, sep: string)
    requires |rest| >= 1
    ensures Join([[c] + rest[0]] + rest[1..], sep) == [c] + Join(rest, sep)
  {
    if |rest| > 1 {
      assert ([[c] + rest[0]] + rest[1..])[1..] == rest[1..];
    }
  }

  /** Splitting and joining again with the same separator gives back the string. */
  lemma {:induction false} JoinSplit(s: string, sep: string)
    ensures Join(Split(s, sep), sep) == s
    decreases |s|
  {
    if sep == "" {
      if |s| > 0 {
        JoinSplit(s[1..], sep);
        var tail := Split(s[1..], sep);
        assert Split(s, sep) == [[s[0]]] + tail;
        if |s| > 1 {
          assert ([[s[0]]] + tail)[1..] == tail;
        }
      }
    } else if |s| < |sep| {
    } else if s[..|sep|] == sep {
      JoinSplit(s[|sep|..], sep);
      JoinConsEmpty(SplitOn(s[|sep|..], sep), sep);
      assert s == sep + s[|sep|..];
    } else {
      JoinSplit(s[1..], sep);
      JoinConsChar(s[0], SplitOn(s[1..], sep), sep);
      assert s == [s[0]] + s[1..];
    }
  }

  lemma {:induction false} SplitOnUnseparated(p: string, c: char)
    requires c !in p
    ensures SplitOn(p, [c]) == [p]
    decreases |p|
  {
    if |p| >= 1 {
      assert p[..1] != [c] by { assert p[0] != c; }
      SplitOnUnseparated(p[1..], c);
      assert [p[0]] + p[1..] == p;
    }
  }

  lemma {:induction false} SplitOnFirstSeparator(p: string, c: char, t: string)
    requires c !in p
    ensures SplitOn(p + [c] + t, [c]) == [p] + SplitOn(t, [c])
    decreases |p|
  {
    var s := p + [c] + t;
    if p == [] {
      assert s[..1] == [c] && s[1..] == t;
    } else {
      assert s[..1] != [c] by { assert s[0] == p[0] != c; }
      assert s[1..] == p[1..] + [c] + t;
      SplitOnFirstSeparator(p[1..], c, t);
      assert [p[0]] + p[1..] == p;
    }
  }

  /** Joining pieces free of a one-character separator and splitting again gives back the pieces. */
  lemma {:induction false} SplitJoin(parts: seq<string>, c: char)
    requires |parts| >= 1
    requires forall p :: p in parts ==> c !in p
    ensures SplitOn(Join(parts, [c]), [c]) == parts
    decreases |parts|
  {
    if |parts| == 1 {
      SplitOnUnseparated(parts[0], c);
    } else {
      SplitJoin(parts[1..], c);
      SplitOnFirstSeparator(parts[0], c, Join(parts[1..], [c]));
      assert parts == [parts[0]] + parts[1..];
    }
  }

  /**
   * Reference meaning of replacing a token: scan from the left, and at each occurrence of `token`
   * emit `value` and continue after that occurrence; every other character is copied.
   */
  function Substitute(s: string, token: string, value: string): string
    requires token != ""
    decreases |s|
  {
    if StartsWith(s, token) then value + Substitute(s[|token|..], token, value)
    else if s == [] then ""
    else [s[0]] + Substitute(s[1..], token, value)
  }

  /** `s.split(token).join(value)` */
  function ReplaceAll(s: string, token: string, value: string): string {
    Join(Split(s, token), value)
  }

  lemma {:induction false} SubstituteShort(s: string, token: string, value: string)
    requires token != "" && |s| < |token|
    ensures Substitute(s, token, value) == s
    decreases |s|
  {
    if s != [] {
      SubstituteShort(s[1..], token, value);
      assert [s[0]] + s[1..] == s;
    }
  }

  /** The split/join idiom replaces every occurrence of a non-empty token, scanning from the left. */
  lemma {:induction false} ReplaceAllSubstitutes(s: string, token: string, value: string)
    requires token != ""
    ensures ReplaceAll(s, token, value) == Substitute(s, token, value)
    decreases |s|
  {
    if |s| < |token| {
      SubstituteShort(s, token, value);
    } else if s[..|token|] == token {
      ReplaceAllSubstitutes(s[|token|..], token, value);
      JoinConsEmpty(SplitOn(s[|token|..], token), value);
    } else {
      ReplaceAllSubstitutes(s[1..], token, value);
      JoinConsChar(s[0], SplitOn(s[1..], token), value);
    }
  }

  /** Replacing a token that does not occur leaves the string as it was. */
  lemma {:induction false} ReplaceAbsent(s: string, token: string, value: string)
    requires token != "" && !Contains(s, token)
    ensures ReplaceAll(s, token, value) == s
  {
    ReplaceAllSubstitutes(s, token, value);
    SubstituteAbsent(s, token, value);
  }

  lemma {:induction false} SubstituteAbsent(s: string, token: string, value: string)
    requires token != "" && !Contains(s, token)
    ensures Substitute(s, token, value) == s
    decreases |s|
  {
    if s != [] {
      assert !StartsWith(s, token);
      assert !Contains(s[1..], token);
      SubstituteAbsent(s[1..], token, value);
      assert [s[0]] + s[1..] == s;
    }
  }
}
