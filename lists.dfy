/**
 * The comma-separated columns of a task row (`files_affected`, `blocked_by`) and the list
 * operations the task store performs on them.
 */
module CommaLists {
  import opened Wrappers
  import opened JsText
  import opened JsNumber

  /** `x || ''` on a nullable text column. */
  function OrEmpty(o: Option<string>): string {
    o.GetOr("")
  }

  /** JavaScript truthiness of a nullable string: present and non-empty. */
  predicate Truthy(o: Option<string>) {
    o.Some? && o.value != ""
  }

  /** `x || null` on a nullable string: truthiness is kept, and an empty string is never stored. */
  function NullIfEmpty(o: Option<string>): (r: Option<string>)
    ensures r != Some("")
    ensures Truthy(r) == Truthy(o)
    ensures Truthy(o) ==> r == o
  {
    if Truthy(o) then o else None
  }

  /** Neither starts nor ends with white space (what `trim` returns). */
  predicate Unpadded(s: string) {
    s == [] || (!IsSpace(s[0]) && !IsSpace(s[|s| - 1]))
  }

  /** `parts.map(s => s.trim())` */
  function TrimAll(parts: seq<string>): (r: seq<string>)
    ensures |r| == |parts|
    ensures forall i :: 0 <= i < |parts| ==> r[i] == Trim(parts[i])
    ensures forall p :: p in r ==> Unpadded(p)
  {
    var r := seq(|parts|, i requires 0 <= i < |parts| => Trim(parts[i]));
    assert forall p :: p in r ==> Unpadded(p) by {
      forall p | p in r ensures Unpadded(p) {
        var i :| 0 <= i < |r| && r[i] == p;
      }
    }
    r
  }

  /** `parts.filter(Boolean)` on strings: the empty ones are dropped, the others keep their order. */
  function DropEmpty(parts: seq<string>): (r: seq<string>)
    ensures |r| <= |parts|
    ensures forall p :: p in r <==> p in parts && p != ""
  {
    if parts == [] then []
    else if parts[0] == "" then DropEmpty(parts[1..])
    else [parts[0]] + DropEmpty(parts[1..])
  }

  /** `(raw || '').split(',').map(f => f.trim()).filter(Boolean)`: the affected-file list of a task. */
  function ParseFileList(raw: Option<string>): (files: seq<string>)
    ensures forall f :: f in files ==> f != "" && Unpadded(f)
  {
    DropEmpty(TrimAll(Split(OrEmpty(raw), ",")))
  }

  /** `parts.filter(s => s.trim()).length`: the number of pieces that are not blank. */
  function CountNonBlank(parts: seq<string>): nat {
    if parts == [] then 0 else (if Trim(parts[0]) != "" then 1 else 0) + CountNonBlank(parts[1..])
  }

  /** Counting non-blank pieces and counting the parsed file list agree. */
  lemma {:induction false} CountNonBlankIsFileCount(parts: seq<string>)
    ensures CountNonBlank(parts) == |DropEmpty(TrimAll(parts))|
  {
    if parts != [] {
      CountNonBlankIsFileCount(parts[1..]);
      assert TrimAll(parts)[1..] == TrimAll(parts[1..]);
    }
  }

  /** `parts.map(s => parseInt(s.trim()))`, `None` standing for `NaN`. */
  function ParseAll(parts: seq<string>): (r: seq<Option<int>>)
    ensures |r| == |parts|
    ensures forall i :: 0 <= i < |parts| ==> r[i] == ParseInt(Trim(parts[i]))
  {
    seq(|parts|, i requires 0 <= i < |parts| => ParseInt(Trim(parts[i])))
  }

  /** `numbers.filter(Boolean)`: `NaN` and zero are dropped, the others keep their order. */
  function DropFalsy(ns: seq<Option<int>>): (r: seq<int>)
    ensures |r| <= |ns|
    ensures forall d :: d in r <==> Some(d) in ns && d != 0
  {
    if ns == [] then []
    else if ns[0].None? || ns[0].value == 0 then DropFalsy(ns[1..])
    else [ns[0].value] + DropFalsy(ns[1..])
  }

  /** `(raw || '').split(',').map(s => parseInt(s.trim())).filter(Boolean)`: the dependency ids of a task. */
  function ParseIdList(raw: Option<string>): (ids: seq<int>)
    ensures forall d :: d in ids ==> d != 0
  {
    DropFalsy(ParseAll(Split(OrEmpty(raw), ",")))
  }

  /** `ids.join(',')` */
  function JoinIds(ids: seq<int>): string {
    Join(IdStrings(ids), ",")
  }

  function IdStrings(ids: seq<int>): (r: seq<string>)
    ensures |r| == |ids|
    ensures forall i :: 0 <= i < |ids| ==> r[i] == IntToString(ids[i])
  {
    seq(|ids|, i requires 0 <= i < |ids| => IntToString(ids[i]))
  }

  lemma ParseWrittenId(x: int)
    ensures ParseInt(Trim(IntToString(x))) == Some(x)
  {
    IntToStringShape(x);
    TrimUnpadded(IntToString(x));
    ParseIntOfString(x);
  }

  lemma ParseWrittenIds(ids: seq<int>)
    ensures ParseAll(IdStrings(ids)) == seq(|ids|, i requires 0 <= i < |ids| => Some(ids[i]))
  {
    var parsed := ParseAll(IdStrings(ids));
    forall i | 0 <= i < |ids| ensures parsed[i] == Some(ids[i]) {
      assert IdStrings(ids)[i] == IntToString(ids[i]);
      ParseWrittenId(ids[i]);
    }
  }

  lemma {:induction false} KeepNonZero(ids: seq<int>)
    requires forall d :: d in ids ==> d != 0
    ensures DropFalsy(seq(|ids|, i requires 0 <= i < |ids| => Some(ids[i]))) == ids
  {
    if ids != [] {
      var ns := seq(|ids|, i requires 0 <= i < |ids| => Some(ids[i]));
      assert ns[1..] == seq(|ids| - 1, i requires 0 <= i < |ids| - 1 => Some(ids[1..][i]));
      assert forall d :: d in ids[1..] ==> d in ids;
      KeepNonZero(ids[1..]);
      assert ids[0] in ids;
      assert ns[0] == Some(ids[0]) && ids[0] != 0;
      assert DropFalsy(ns) == [ids[0]] + DropFalsy(ns[1..]);
      assert ids == [ids[0]] + ids[1..];
    }
  }

  /** A dependency list written back with `join(',')` parses to the same ids. */
  lemma IdListRoundTrip(ids: seq<int>)
    requires forall d :: d in ids ==> d != 0
    ensures ParseIdList(Some(JoinIds(ids))) == ids
  {
    if ids == [] {
      assert Split("", ",") == [""];
      assert ParseAll([""]) == [None];
    } else {
      var strs := IdStrings(ids);
      forall p | p in strs ensures ',' !in p {
        var i :| 0 <= i < |strs| && strs[i] == p;
        IntToStringShape(ids[i]);
      }
      SplitJoin(strs, ',');
      ParseWrittenIds(ids);
      KeepNonZero(ids);
    }
  }

  /** `ids.filter(d => d !== x)` */
  function Without(ids: seq<int>, x: int): (r: seq<int>)
    ensures |r| <= |ids|
    ensures forall d :: d in r <==> d in ids && d != x
    ensures x in ids ==> |r| < |ids|
  {
    if ids == [] then []
    else if ids[0] == x then Without(ids[1..], x)
    else [ids[0]] + Without(ids[1..], x)
  }

  /** `a.filter(f => b.includes(f))`: the files of `a` that also occur in `b`, in `a`'s order. */
  function Overlap(a: seq<string>, b: seq<string>): (r: seq<string>)
    ensures |r| <= |a|
    ensures forall f :: f in r <==> f in a && f in b
  {
    if a == [] then []
    else if a[0] in b then [a[0]] + Overlap(a[1..], b)
    else Overlap(a[1..], b)
  }

  /** The filter keeps `a`'s order: one file is kept iff `b` has it, and a concatenation is filtered part by part. */
  lemma {:induction false} OverlapOrder(a1: seq<string>, a2: seq<string>, b: seq<string>)
    ensures forall f :: Overlap([f], b) == (if f in b then [f] else [])
    ensures Overlap(a1 + a2, b) == Overlap(a1, b) + Overlap(a2, b)
    decreases |a1|
  {
    forall f ensures Overlap([f], b) == (if f in b then [f] else []) {
      assert [f][1..] == [];
    }
    if a1 == [] {
      assert a1 + a2 == a2;
    } else {
      assert (a1 + a2)[0] == a1[0] && (a1 + a2)[1..] == a1[1..] + a2;
      OverlapOrder(a1[1..], a2, b);
    }
  }

  /** Overlap is symmetric as a set of files: the same files are shared either way round. */
  lemma OverlapSymmetric(a: seq<string>, b: seq<string>)
    ensures forall f :: f in Overlap(a, b) <==> f in Overlap(b, a)
    ensures Overlap(a, b) == [] <==> Overlap(b, a) == []
  {
    if Overlap(a, b) != [] {
      assert Overlap(a, b)[0] in Overlap(b, a);
    }
    if Overlap(b, a) != [] {
      assert Overlap(b, a)[0] in Overlap(a, b);
    }
  }
}
