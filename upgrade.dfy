/**
 * The token handling of the upgrader: the defaults that complete the values extracted from an
 * existing project, the `{{KEY}}` replacement pass, and the name of a backup copy.
 */
module Upgrade {
  import opened Wrappers
  import opened JsText
  import opened CommaLists
  import opened Bootstrap

  /** A plain object with string keys: its entries in insertion order. */
  type Tokens = seq<(string, string)>

  /** An object has each key once. */
  predicate DistinctKeys(t: Tokens) {
    forall i, j :: 0 <= i < j < |t| ==> t[i].0 != t[j].0
  }

  /** `tokens[key]`, `None` standing for `undefined`: the value of the first entry with that key. */
  function Lookup(t: Tokens, key: string): Option<string> {
    if t == [] then None
    else if t[0].0 == key then Some(t[0].1)
    else Lookup(t[1..], key)
  }

  /** A key is found iff some entry has it, and in an object with distinct keys each entry is what its key finds. */
  lemma {:induction false} LookupFacts(t: Tokens, key: string)
    ensures Lookup(t, key).Some? <==> exists i :: 0 <= i < |t| && t[i].0 == key
    ensures DistinctKeys(t) ==> forall i :: 0 <= i < |t| && t[i].0 == key ==> Lookup(t, key) == Some(t[i].1)
  {
    if t != [] {
      LookupFacts(t[1..], key);
      if exists i :: 0 <= i < |t| && t[i].0 == key {
        var i :| 0 <= i < |t| && t[i].0 == key;
        if t[0].0 != key {
          assert t[1..][i - 1].0 == key;
        }
      }
      if Lookup(t, key).Some? && t[0].0 != key {
        var i :| 0 <= i < |t[1..]| && t[1..][i].0 == key;
        assert t[i + 1].0 == key;
      }
      if DistinctKeys(t) {
        assert DistinctKeys(t[1..]) by {
          forall i, j | 0 <= i < j < |t[1..]| ensures t[1..][i].0 != t[1..][j].0 {
            assert t[1..][i] == t[i + 1] && t[1..][j] == t[j + 1];
          }
        }
        forall i | 0 <= i < |t| && t[i].0 == key ensures Lookup(t, key) == Some(t[i].1) {
          if i > 0 {
            assert t[1..][i - 1] == t[i];
          }
        }
      }
    }
  }

  /** `tokens[key] = value`: an existing key keeps its place, a new one goes last. */
  function Put(t: Tokens, key: string, value: string): (r: Tokens)
    requires DistinctKeys(t)
    ensures DistinctKeys(r)
    ensures Lookup(r, key) == Some(value)
    ensures forall k :: k != key ==> Lookup(r, k) == Lookup(t, k)
    ensures |t| <= |r| <= |t| + 1
    ensures forall i :: 0 <= i < |t| ==> r[i].0 == t[i].0
  {
    if t == [] then [(key, value)]
    else if t[0].0 == key then
      var r := [(key, value)] + t[1..];
      assert r[1..] == t[1..];
      r
    else
      assert DistinctKeys(t[1..]) by {
        forall i, j | 0 <= i < j < |t[1..]| ensures t[1..][i].0 != t[1..][j].0 {
          assert t[1..][i] == t[i + 1] && t[1..][j] == t[j + 1];
        }
      }
      var rest := Put(t[1..], key, value);
      var r := [t[0]] + rest;
      assert r[1..] == rest;
      assert forall i :: 0 < i < |r| ==> r[i].0 != t[0].0 by {
        forall i | 0 < i < |r| ensures r[i].0 != t[0].0 {
          var k := rest[i - 1].0;
          if k != key {
            LookupFacts(rest, k);
            LookupFacts(t[1..], k);
            var j :| 0 <= j < |t[1..]| && t[1..][j].0 == k;
            assert t[j + 1].0 == k;
          }
        }
      }
      r
  }

  /** `if (!tokens[key]) tokens[key] = value` */
  function DefaultTo(t: Tokens, key: string, value: string): (r: Tokens)
    requires DistinctKeys(t)
    ensures DistinctKeys(r)
    ensures Truthy(Lookup(t, key)) ==> r == t
    ensures !Truthy(Lookup(t, key)) ==> Lookup(r, key) == Some(value)
    ensures forall k :: k != key ==> Lookup(r, k) == Lookup(t, k)
    ensures |t| <= |r| && forall i :: 0 <= i < |t| ==> r[i].0 == t[i].0
  {
    if Truthy(Lookup(t, key)) then t else Put(t, key, value)
  }

  /** The defaults in the order they are applied: every token but the keyword list, with its default. */
  function DefaultTable(baseName: string): Tokens {
    [("PROJECT_NAME", baseName),
     ("PROJECT_DESCRIPTION", "Project description"),
     ("TECH_STACK", "See project-overview.md"),
     ("FRAMEWORK", "See project-overview.md"),
     ("STYLING", "See design-system.md"),
     ("CMS", "none"),
     ("HOSTING", "See project-overview.md"),
     ("TESTING", "vitest"),
     ("BRAND_COLORS", Tbd),
     ("FONTS", Tbd)]
  }

  /** The table names the first ten tokens, each once, and only the project name can default to an empty value. */
  lemma DefaultTableFacts(baseName: string)
    ensures var table := DefaultTable(baseName);
      && |table| == |TokenNames| - 1
      && DistinctKeys(table)
      && (forall i :: 0 <= i < |table| ==> table[i].0 == TokenNames[i])
      && (forall i :: 1 <= i < |table| ==> table[i].1 != "")
      && TokenNames[|TokenNames| - 1] == "SECURITY_KEYWORDS"
      && (forall i :: 0 <= i < |table| ==> table[i].0 != "SECURITY_KEYWORDS")
      && table[5].0 == "CMS"
  {
    var table := DefaultTable(baseName);
    forall i, j | 0 <= i < j < |TokenNames| ensures TokenNames[i] != TokenNames[j] {
      assert TokenNames[i] != TokenNames[j];
    }
  }

  /** Each default of `defs` applied in order with `DefaultTo`. */
  function DefaultAll(t: Tokens, defs: Tokens): (r: Tokens)
    requires DistinctKeys(t)
    ensures DistinctKeys(r)
    ensures |t| <= |r| && forall i :: 0 <= i < |t| ==> r[i].0 == t[i].0
    decreases |defs|
  {
    if defs == [] then t
    else
      var last := defs[|defs| - 1];
      DefaultTo(DefaultAll(t, defs[..|defs| - 1]), last.0, last.1)
  }

  /**
   * After the defaults of `defs` (each key once), a key they do not name is untouched, and a key
   * they name keeps a truthy value and otherwise holds its default.
   */
  lemma {:induction false} DefaultAllFacts(t: Tokens, defs: Tokens)
    requires DistinctKeys(t) && DistinctKeys(defs)
    ensures forall k :: (forall i :: 0 <= i < |defs| ==> defs[i].0 != k) ==> Lookup(DefaultAll(t, defs), k) == Lookup(t, k)
    ensures forall i :: 0 <= i < |defs| ==>
      Lookup(DefaultAll(t, defs), defs[i].0) == if Truthy(Lookup(t, defs[i].0)) then Lookup(t, defs[i].0) else Some(defs[i].1)
    decreases |defs|
  {
    if defs != [] {
      var init := defs[..|defs| - 1];
      var last := defs[|defs| - 1];
      DefaultAllFacts(t, init);
      var prev := DefaultAll(t, init);
      assert DefaultAll(t, defs) == DefaultTo(prev, last.0, last.1);
      assert Lookup(prev, last.0) == Lookup(t, last.0) by {
        assert forall i :: 0 <= i < |init| ==> init[i].0 != last.0;
      }
      forall i | 0 <= i < |defs|
        ensures Lookup(DefaultAll(t, defs), defs[i].0) == if Truthy(Lookup(t, defs[i].0)) then Lookup(t, defs[i].0) else Some(defs[i].1)
      {
        if i < |init| {
          assert init[i] == defs[i];
        }
      }
    }
  }

  /**
   * The defaults block of `extractTokens`: each missing or empty token gets its default, in the
   * source's order, and the keyword list is derived last, from the CMS value the defaults left.
   * `baseName` is `path.basename(targetDir)`.
   */
  function FillDefaults(extracted: Tokens, baseName: string): (tokens: Tokens)
    requires DistinctKeys(extracted)
    ensures DistinctKeys(tokens)
    ensures |extracted| <= |tokens| && forall i :: 0 <= i < |extracted| ==> tokens[i].0 == extracted[i].0
  {
    var table := DefaultTable(baseName);
    var defaulted := DefaultAll(extracted, table);
    if Truthy(Lookup(defaulted, "SECURITY_KEYWORDS")) then defaulted
    else
      DefaultTableFacts(baseName);
      DefaultAllFacts(extracted, table);
      Put(defaulted, "SECURITY_KEYWORDS", KeywordsFor(Lookup(defaulted, "CMS").value))
  }

  /** Tokens other than the eleven keep their extracted values, or stay absent. */
  lemma FillDefaultsOthers(extracted: Tokens, baseName: string, k: string)
    requires DistinctKeys(extracted)
    requires k !in TokenNames
    ensures Lookup(FillDefaults(extracted, baseName), k) == Lookup(extracted, k)
  {
    var table := DefaultTable(baseName);
    DefaultTableFacts(baseName);
    DefaultAllFacts(extracted, table);
    assert forall i :: 0 <= i < |table| ==> table[i].0 != k;
  }

  /** Each of the first ten tokens keeps a truthy extracted value and otherwise takes its default. */
  lemma FillDefaultsValues(extracted: Tokens, baseName: string)
    requires DistinctKeys(extracted)
    ensures forall i :: 0 <= i < |DefaultTable(baseName)| ==>
      Lookup(FillDefaults(extracted, baseName), DefaultTable(baseName)[i].0) ==
        if Truthy(Lookup(extracted, DefaultTable(baseName)[i].0)) then Lookup(extracted, DefaultTable(baseName)[i].0)
        else Some(DefaultTable(baseName)[i].1)
  {
    var table := DefaultTable(baseName);
    DefaultTableFacts(baseName);
    DefaultAllFacts(extracted, table);
  }

  /** The keyword list, when missing or empty, is the base list extended by the final CMS value. */
  lemma FillDefaultsKeywords(extracted: Tokens, baseName: string)
    requires DistinctKeys(extracted)
    ensures var tokens := FillDefaults(extracted, baseName);
      && Lookup(tokens, "CMS").Some?
      && Lookup(tokens, "SECURITY_KEYWORDS") ==
           (if Truthy(Lookup(extracted, "SECURITY_KEYWORDS")) then Lookup(extracted, "SECURITY_KEYWORDS")
            else Some(KeywordsFor(Lookup(tokens, "CMS").value)))
  {
    var table := DefaultTable(baseName);
    DefaultTableFacts(baseName);
    DefaultAllFacts(extracted, table);
  }

  /** Every token ends up truthy, except the project name when the directory's base name is empty. */
  lemma FillDefaultsTruthy(extracted: Tokens, baseName: string, k: string)
    requires DistinctKeys(extracted)
    requires k in TokenNames && (k != "PROJECT_NAME" || baseName != "")
    ensures Truthy(Lookup(FillDefaults(extracted, baseName), k))
  {
    var table := DefaultTable(baseName);
    DefaultTableFacts(baseName);
    FillDefaultsValues(extracted, baseName);
    FillDefaultsKeywords(extracted, baseName);
    var j :| 0 <= j < |TokenNames| && TokenNames[j] == k;
    if j < |table| {
      assert table[j].0 == k;
    }
  }

  /** With no CMS found, the CMS default `none` leaves the keyword default at the base list. */
  lemma NoCmsBaseKeywords(baseName: string)
    ensures DefaultTable(baseName)[5] == ("CMS", "none")
    ensures KeywordsFor(DefaultTable(baseName)[5].1) == BaseKeywords
  {
    assert ToLower("none") == "none";
  }

  /** Each key wrapped as `{{KEY}}`, with its value. */
  function Wrapped(t: Tokens): seq<(string, string)> {
    seq(|t|, i requires 0 <= i < |t| => (Placeholder(t[i].0), t[i].1))
  }

  /** `replaceTokens(content, tokens)`: `result.split('{{' + key + '}}').join(value)` for each entry in order. */
  method ReplaceTokens(content: string, tokens: Tokens) returns (result: string)
    ensures result == ReplaceEach(content, Wrapped(tokens))
  {
    ghost var pairs := Wrapped(tokens);
    result := content;
    var i := 0;
    while i < |tokens|
      invariant 0 <= i <= |tokens|
      invariant result == ReplaceEach(content, pairs[..i])
    {
      var (key, value) := tokens[i];
      result := Join(Split(result, "{{" + key + "}}"), value);
      assert pairs[..i + 1][..i] == pairs[..i];
      i := i + 1;
    }
    assert pairs[..|tokens|] == pairs;
  }

  /** A file in which no `{{KEY}}` placeholder occurs comes back unchanged. */
  lemma ReplaceTokensAbsent(content: string, tokens: Tokens)
    requires forall i :: 0 <= i < |tokens| ==> !Contains(content, Placeholder(tokens[i].0))
    ensures ReplaceEach(content, Wrapped(tokens)) == content
  {
    var pairs := Wrapped(tokens);
    forall p | p in pairs ensures p.0 != "" && !Contains(content, p.0) {
      var i :| 0 <= i < |pairs| && pairs[i] == p;
    }
    ReplaceEachAbsent(content, pairs);
  }

  /** `new Date().toISOString().split('T')[0]`, the timestamp a parameter. */
  function Today(iso: string): string {
    SplitOn(iso, "T")[0]
  }

  /** The date part of an ISO timestamp. */
  lemma TodayOfTimestamp(date: string, time: string)
    requires 'T' !in date
    ensures Today(date + "T" + time) == date
  {
    SplitOnFirstSeparator(date, 'T', time);
  }

  /** `backup(filePath)`: the copy's path when the file exists, `null` otherwise; the copy itself is not modelled. */
  function Backup(filePath: string, fileExists: bool, today: string): (r: Option<string>)
    ensures r.Some? <==> fileExists
    ensures r.Some? ==> StartsWith(r.value, filePath) && r.value[|filePath|..] == ".backup-" + today
    ensures r.Some? ==> r.value != filePath
  {
    if fileExists then Some(filePath + ".backup-" + today) else None
  }
}
