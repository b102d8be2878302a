/**
 * The argument handling of the task command line: the `--key value` flag parser and the id list
 * that `conflict-check` accepts.
 */
module Cli {
  import opened Wrappers
  import opened JsText
  import opened JsNumber
  import opened CommaLists

  /** A flag's value: the argument after it, or `true` when there is none to take. */
  datatype FlagValue = Text(text: string) | Present

  /** `args[i].startsWith('--')` */
  predicate IsFlag(arg: string) {
    StartsWith(arg, "--")
  }

  /** `args[i + 1] && !args[i + 1].startsWith('--')`: an argument that can serve as a value. */
  predicate Takeable(arg: string) {
    arg != "" && !IsFlag(arg)
  }

  /** `flags[key] = value`; assigning a primitive to `__proto__` changes nothing on a plain object. */
  function Assign(key: string, value: FlagValue): map<string, FlagValue> {
    if key == "__proto__" then map[] else map[key := value]
  }

  /**
   * The flags of `args`, read from the left: a flag takes the next argument as its value when
   * that one can serve, and a later assignment of a key replaces an earlier one.
   */
  function Flags(args: seq<string>): map<string, FlagValue>
    decreases |args|
  {
    if args == [] then map[]
    else if !IsFlag(args[0]) then Flags(args[1..])
    else
      var key := args[0][2..];
      if |args| > 1 && Takeable(args[1]) then Assign(key, Text(args[1])) + Flags(args[2..])
      else Assign(key, Present) + Flags(args[1..])
  }

  /** `parseFlags(args)`: one pass with an index that skips a consumed value. */
  method ParseFlags(args: seq<string>) returns (flags: map<string, FlagValue>)
    ensures flags == Flags(args)
  {
    flags := map[];
    var i := 0;
    while i < |args|
      invariant 0 <= i <= |args|
      invariant flags + Flags(args[i..]) == Flags(args)
    {
      if IsFlag(args[i]) {
        var key := args[i][2..];
        var value := if i + 1 < |args| && Takeable(args[i + 1]) then Text(args[i + 1]) else Present;
        MapUnionAssoc(flags, Assign(key, value), Flags(args[i + 1 + (if value.Text? then 1 else 0)..]));
        assert args[i..][1..] == args[i + 1..];
        if value.Text? {
          assert args[i..][2..] == args[i + 2..];
        }
        if key != "__proto__" {
          flags := flags[key := value];
        }
        if value != Present {
          i := i + 1;
        }
      } else {
        assert args[i..][1..] == args[i + 1..];
      }
      i := i + 1;
    }
  }

  lemma MapUnionAssoc(a: map<string, FlagValue>, b: map<string, FlagValue>, c: map<string, FlagValue>)
    ensures (a + b) + c == a + (b + c)
  {
  }

  /** Every key comes from some argument starting with `--`, with that prefix removed. */
  lemma {:induction false} FlagsKeys(args: seq<string>)
    ensures forall k :: k in Flags(args) ==> exists i :: 0 <= i < |args| && IsFlag(args[i]) && args[i][2..] == k
    decreases |args|
  {
    if args != [] {
      var rest := if IsFlag(args[0]) && |args| > 1 && Takeable(args[1]) then args[2..] else args[1..];
      FlagsKeys(rest);
      forall k | k in Flags(args) ensures exists i :: 0 <= i < |args| && IsFlag(args[i]) && args[i][2..] == k {
        if k in Flags(rest) {
          var j :| 0 <= j < |rest| && IsFlag(rest[j]) && rest[j][2..] == k;
          assert rest[j] == args[j + |args| - |rest|];
        } else {
          assert IsFlag(args[0]) && args[0][2..] == k;
        }
      }
    }
  }

  /**
   * Reading is compositional at a point that cannot be taken as a value: the flags of a
   * concatenation are those of the first part overridden by those of the second.
   */
  lemma {:induction false} FlagsConcat(args: seq<string>, suffix: seq<string>)
    requires suffix == [] || !Takeable(suffix[0])
    ensures Flags(args + suffix) == Flags(args) + Flags(suffix)
    decreases |args|
  {
    if args == [] {
      assert args + suffix == suffix;
    } else if !IsFlag(args[0]) {
      assert (args + suffix)[1..] == args[1..] + suffix;
      FlagsConcat(args[1..], suffix);
    } else if |args| > 1 && Takeable(args[1]) {
      assert (args + suffix)[2..] == args[2..] + suffix;
      FlagsConcat(args[2..], suffix);
      MapUnionAssoc(Assign(args[0][2..], Text(args[1])), Flags(args[2..]), Flags(suffix));
    } else {
      assert (args + suffix)[1..] == args[1..] + suffix;
      if |args| == 1 && suffix != [] {
        assert (args + suffix)[1] == suffix[0];
      }
      FlagsConcat(args[1..], suffix);
      MapUnionAssoc(Assign(args[0][2..], Present), Flags(args[1..]), Flags(suffix));
    }
  }

  /** `--key value` sets the key to the value, and `--key` followed by another flag or nothing sets it to `true`. */
  lemma FlagPair(key: string, value: string)
    requires key != "__proto__"
    ensures Takeable(value) ==> Flags(["--" + key, value]) == map[key := Text(value)]
    ensures !Takeable(value) ==> Flags(["--" + key]) == map[key := Present]
  {
    assert ("--" + key)[2..] == key;
    assert IsFlag("--" + key);
    assert ["--" + key, value][2..] == [];
    assert ["--" + key][1..] == [];
  }

  /** A repeated key keeps the last value given. */
  lemma LastWins(args: seq<string>, key: string, value: string)
    requires key != "__proto__" && Takeable(value)
    ensures var flags := Flags(args + ["--" + key, value]); key in flags && flags[key] == Text(value)
  {
    FlagPair(key, value);
    assert IsFlag("--" + key);
    FlagsConcat(args, ["--" + key, value]);
  }

  /** An argument that does not start with `--` and is not taken as a value adds nothing. */
  lemma BareArgument(arg: string, rest: seq<string>)
    requires !IsFlag(arg)
    ensures Flags([arg] + rest) == Flags(rest)
  {
    assert ([arg] + rest)[1..] == rest;
  }

  /** `--sessions` carries text that `parseInt` reads as a nonzero number. */
  predicate SessionsGiven(flags: map<string, FlagValue>) {
    "sessions" in flags && flags["sessions"].Text? && ParseInt(flags["sessions"].text).Some?
    && ParseInt(flags["sessions"].text).value != 0
  }

  /** `parseInt(flags.sessions) || 2`: a missing, non-numeric or zero count becomes 2. */
  function SessionsFlag(flags: map<string, FlagValue>): (n: int)
    ensures n != 0
    ensures SessionsGiven(flags) ==> n == ParseInt(flags["sessions"].text).value
    ensures !SessionsGiven(flags) ==> n == 2
  {
    if "sessions" in flags && flags["sessions"].Text? then
      match ParseInt(flags["sessions"].text)
      case Some(v) => if v != 0 then v else 2
      case None => 2
    else 2
  }

  /** `flags.assign === true || flags.assign === 'true'` */
  predicate AssignFlag(flags: map<string, FlagValue>) {
    "assign" in flags && (flags["assign"] == Present || flags["assign"] == Text("true"))
  }

  /** `flags.agent || 'developer'`: a bare `--agent` stays the value `true`. */
  function AgentFlag(flags: map<string, FlagValue>): (a: FlagValue)
    ensures a.Text? ==> a.text != ""
    ensures ("agent" !in flags || flags["agent"] == Text("")) ==> a == Text("developer")
    ensures ("agent" in flags && flags["agent"] != Text("")) ==> a == flags["agent"]
  {
    if "agent" in flags && flags["agent"] != Text("") then flags["agent"] else Text("developer")
  }

  /**
   * The command `suggest-batch` prints for assigning its suggestion reads back as that suggestion:
   * the same session count, `--assign` set, and the same agent.
   */
  lemma SuggestHintRoundTrip(n: int, agent: string)
    requires n != 0 && Takeable(agent)
    ensures var flags := Flags(["--sessions", IntToString(n), "--assign", "--agent", agent]);
      SessionsFlag(flags) == n && AssignFlag(flags) && AgentFlag(flags) == Text(agent)
  {
    var s := IntToString(n);
    ParseIntOfString(n);
    WrittenIntTakeable(n);
    HintFlags(s, agent);
    var flags := map["sessions" := Text(s), "assign" := Present, "agent" := Text(agent)];
    assert SessionsGiven(flags);
  }

  /** A written integer can serve as a flag's value: it is non-empty and never starts with `--`. */
  lemma WrittenIntTakeable(n: int)
    ensures Takeable(IntToString(n))
  {
    var s := IntToString(n);
    if n < 0 {
      assert s[1] == NatToString(-n)[0];
      assert s[..2] != "--";
    } else {
      assert s[0] == NatToString(n)[0];
      assert |s| < 2 || s[..2] != "--";
    }
  }

  /** The flags of the printed command `--sessions s --assign --agent a`. */
  lemma HintFlags(s: string, agent: string)
    requires Takeable(s) && Takeable(agent)
    ensures Flags(["--sessions", s, "--assign", "--agent", agent])
      == map["sessions" := Text(s), "assign" := Present, "agent" := Text(agent)]
  {
    var a, b, c := ["--sessions", s], ["--assign"], ["--agent", agent];
    assert a + b + c == ["--sessions", s, "--assign", "--agent", agent];
    assert "--" + "sessions" == "--sessions" && "--" + "assign" == "--assign" && "--" + "agent" == "--agent";
    assert IsFlag("--assign") && IsFlag("--agent");
    FlagsConcat(a, b);
    FlagsConcat(a + b, c);
    FlagPair("sessions", s);
    FlagPair("assign", "");
    FlagPair("agent", agent);
  }

  /** `conflict-check` refuses with a usage message when fewer than two ids remain. */
  datatype Usage = Usage

  /** `(args[1] || '').split(',').map(s => parseInt(s.trim())).filter(Boolean)`, then the guard. */
  function ConflictCheckIds(arg: Option<string>): (r: Result<seq<int>, Usage>)
    ensures r.Success? ==> |r.value| >= 2 && forall d :: d in r.value ==> d != 0
    ensures r.Failure? <==> |ParseIdList(arg)| < 2
  {
    var ids := ParseIdList(arg);
    if |ids| < 2 then Failure(Usage) else Success(ids)
  }

  /** A list of at least two nonzero ids written with `join(',')` is accepted as exactly those ids. */
  lemma ConflictCheckRoundTrip(ids: seq<int>)
    requires |ids| >= 2 && forall d :: d in ids ==> d != 0
    ensures ConflictCheckIds(Some(JoinIds(ids))) == Success(ids)
  {
    IdListRoundTrip(ids);
  }
}
