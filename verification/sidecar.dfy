/**
 * The rule matcher of the sidecar's entry point and the two callbacks the
 * entry point builds: the init callback runs the init commands; the refresh
 * callback picks the commands of the first refresh rule whose condition the
 * changed files satisfy and runs them.
 */
module Sidecar {
  import opened Errors
  import opened Config
  import opened Host
  import opened RunHandler

  /** The index of the last `c` in `s`, or -1 when there is none. */
  function LastIndexOf(s: string, c: char): (i: int)
    ensures -1 <= i < |s|
    ensures i == -1 <==> c !in s
    ensures 0 <= i ==> s[i] == c && c !in s[i + 1..]
  {
    if s == [] then -1
    else if s[|s| - 1] == c then |s| - 1
    else
      assert s == s[..|s| - 1] + [s[|s| - 1]];
      var i := LastIndexOf(s[..|s| - 1], c);
      assert 0 <= i ==> s[i + 1..] == s[..|s| - 1][i + 1..] + [s[|s| - 1]];
      i
  }

  /**
   * The file suffix: the text after the last `.` of the name, or `""` when the
   * name has no `.`. The name is the whole path, so a `.` in a directory name
   * counts as well.
   */
  function FileSuffix(name: string): (r: string)
    ensures '.' !in r
    ensures '.' !in name ==> r == ""
    ensures '.' in name ==> |r| < |name| && name[|name| - |r| - 1] == '.' && r == name[|name| - |r|..]
  {
    var i := LastIndexOf(name, '.');
    if i == -1 then "" else name[i + 1..]
  }

  /** The conditions on the suffix determine it: there is only one text after the last `.`. */
  lemma SuffixUnique(name: string, r: string)
    requires |r| < |name| && name[|name| - |r| - 1] == '.' && r == name[|name| - |r|..] && '.' !in r
    ensures r == FileSuffix(name)
  {
    assert name[|name| - |r| - 1] in name;
  }

  /**
   * The suffix of a path `dir + "/" + base`: that of `base` when `base` has a
   * `.`; otherwise the text after the last `.` of `dir` followed by the rest of
   * the path, or `""` when neither has a `.`.
   */
  lemma PathSuffix(dir: string, base: string)
    ensures '.' in base ==> FileSuffix(dir + "/" + base) == FileSuffix(base)
    ensures '.' !in base && '.' in dir ==> FileSuffix(dir + "/" + base) == FileSuffix(dir) + "/" + base
    ensures '.' !in base && '.' !in dir ==> FileSuffix(dir + "/" + base) == ""
  {
    var name := dir + "/" + base;
    if '.' in base {
      var r := FileSuffix(base);
      assert name[|name| - |base|..] == base;
      assert name[|name| - |r| - 1] == base[|base| - |r| - 1];
      assert name[|name| - |r|..] == base[|base| - |r|..];
      SuffixUnique(name, r);
    } else if '.' in dir {
      var d := FileSuffix(dir);
      var r := d + "/" + base;
      assert name[|name| - |r| - 1] == dir[|dir| - |d| - 1];
      assert name[|name| - |r|..] == dir[|dir| - |d|..] + "/" + base;
      assert '.' !in r by {
        forall i | 0 <= i < |r| ensures r[i] != '.' {
          if i < |d| { assert r[i] == d[i]; }
          else if i > |d| { assert r[i] == base[i - |d| - 1]; }
        }
      }
      SuffixUnique(name, r);
    } else {
      assert '.' !in name by {
        forall i | 0 <= i < |name| ensures name[i] != '.' {
          if i < |dir| { assert name[i] == dir[i]; }
          else if i > |dir| { assert name[i] == base[i - |dir| - 1]; }
        }
      }
    }
  }

  /** The files grouped by suffix; each group keeps the order of `files`. */
  function Buckets(files: seq<File>): (m: map<string, seq<File>>)
    ensures forall e :: e in m ==> |m[e]| > 0
  {
    if files == [] then map[]
    else
      var m := Buckets(files[..|files| - 1]);
      var f := files[|files| - 1];
      var e := FileSuffix(f.name);
      m[e := (if e in m then m[e] else []) + [f]]
  }

  /** The files whose suffix is `e`, in order. */
  function WithSuffix(files: seq<File>, e: string): (r: seq<File>)
    ensures |r| <= |files|
  {
    if files == [] then []
    else
      WithSuffix(files[..|files| - 1], e)
      + (if FileSuffix(files[|files| - 1].name) == e then [files[|files| - 1]] else [])
  }

  /** Each bucket holds exactly the files with its suffix, in input order, and no file is left out. */
  lemma {:induction false} BucketIsFilter(files: seq<File>, e: string)
    ensures e in Buckets(files) ==> Buckets(files)[e] == WithSuffix(files, e)
    ensures e !in Buckets(files) ==> WithSuffix(files, e) == []
  {
    if files != [] {
      BucketIsFilter(files[..|files| - 1], e);
    }
  }

  lemma {:induction false} WithSuffixNonEmpty(files: seq<File>, e: string)
    ensures WithSuffix(files, e) != [] <==> exists i :: 0 <= i < |files| && FileSuffix(files[i].name) == e
  {
    if files != [] {
      var init := files[..|files| - 1];
      WithSuffixNonEmpty(init, e);
      if exists i :: 0 <= i < |files| && FileSuffix(files[i].name) == e {
        var i :| 0 <= i < |files| && FileSuffix(files[i].name) == e;
        if i < |files| - 1 { assert init[i] == files[i]; }
      }
    }
  }

  /** The total number of files over all buckets. */
  ghost function SizeSum(m: map<string, seq<File>>): nat
    decreases |m.Keys|
  {
    if m.Keys == {} then 0
    else
      var k :| k in m.Keys;
      assert (m - {k}).Keys == m.Keys - {k};
      |m[k]| + SizeSum(m - {k})
  }

  lemma {:induction false} SizeSumRemove(m: map<string, seq<File>>, k: string)
    requires k in m
    ensures SizeSum(m) == |m[k]| + SizeSum(m - {k})
    decreases |m.Keys|
  {
    var j :| j in m.Keys && SizeSum(m) == |m[j]| + SizeSum(m - {j});
    if j != k {
      assert (m - {j}).Keys == m.Keys - {j};
      assert (m - {k}).Keys == m.Keys - {k};
      assert k in m - {j} && (m - {j})[k] == m[k];
      assert j in m - {k} && (m - {k})[j] == m[j];
      SizeSumRemove(m - {j}, k);
      SizeSumRemove(m - {k}, j);
      assert m - {j} - {k} == m - {k} - {j};
    }
  }

  lemma SizeSumUpdate(m: map<string, seq<File>>, e: string, v: seq<File>)
    ensures SizeSum(m[e := v]) + (if e in m then |m[e]| else 0) == SizeSum(m) + |v|
  {
    var m' := m[e := v];
    SizeSumRemove(m', e);
    assert m' - {e} == m - {e};
    if e in m {
      SizeSumRemove(m, e);
    } else {
      assert m - {e} == m;
    }
  }

  /** Bucket sizes add up to the number of files. */
  lemma {:induction false} BucketSizesSum(files: seq<File>)
    ensures SizeSum(Buckets(files)) == |files|
  {
    if files != [] {
      var init := files[..|files| - 1];
      BucketSizesSum(init);
      var m := Buckets(init);
      var e := FileSuffix(files[|files| - 1].name);
      SizeSumUpdate(m, e, (if e in m then m[e] else []) + [files[|files| - 1]]);
    }
  }

  predicate HasPrefix(s: string, prefix: string) {
    |prefix| <= |s| && s[..|prefix|] == prefix
  }

  /**
   * Whether a refresh condition holds: `""` always; `*.<ext>` when some file
   * has suffix `<ext>`; anything else never.
   */
  function ConditionMatches(buckets: map<string, seq<File>>, condition: string): (b: bool)
    ensures condition == "" ==> b
    ensures condition != "" && !HasPrefix(condition, "*.") ==> !b
    ensures b && condition != "" ==> condition[2..] in buckets && buckets[condition[2..]] != []
  {
    if condition == "" then true
    else if HasPrefix(condition, "*.") then
      var suffix := condition[2..];
      suffix in buckets && |buckets[suffix]| > 0
    else false
  }

  /** `*.<e>` holds if and only if at least one changed file has suffix `e`. */
  lemma ExtensionConditionIff(files: seq<File>, e: string)
    ensures ConditionMatches(Buckets(files), "*." + e)
        <==> exists i :: 0 <= i < |files| && FileSuffix(files[i].name) == e
  {
    var c := "*." + e;
    assert HasPrefix(c, "*.") && c[2..] == e;
    BucketIsFilter(files, e);
    WithSuffixNonEmpty(files, e);
  }

  /** The commands of the first rule whose condition holds. */
  function SelectRule(buckets: map<string, seq<File>>, rules: seq<RefreshCmd>): (r: Result<seq<string>>)
    ensures r.Success? <==> exists k :: 0 <= k < |rules| && ConditionMatches(buckets, rules[k].condition)
    ensures r.Failure? ==> r.error == NoMatchRefreshConfig
  {
    if rules == [] then Failure(NoMatchRefreshConfig)
    else if ConditionMatches(buckets, rules[0].condition) then Success(rules[0].cmds)
    else
      var r := SelectRule(buckets, rules[1..]);
      assert forall k :: 1 <= k < |rules| ==> rules[k] == rules[1..][k - 1];
      r
  }

  /** First match wins: the rule at `k` is chosen when no earlier rule holds; later rules are not consulted. */
  lemma {:induction false} SelectRuleFirstMatch(buckets: map<string, seq<File>>, rules: seq<RefreshCmd>, k: nat)
    requires k < |rules| && ConditionMatches(buckets, rules[k].condition)
    requires forall j :: 0 <= j < k ==> !ConditionMatches(buckets, rules[j].condition)
    ensures SelectRule(buckets, rules) == Success(rules[k].cmds)
  {
    if k > 0 {
      SelectRuleFirstMatch(buckets, rules[1..], k - 1);
    }
  }

  /** One step of the rule scan: rule `j` is taken if it holds, otherwise the scan goes on. */
  lemma SelectRuleStep(buckets: map<string, seq<File>>, rules: seq<RefreshCmd>, j: nat)
    requires j < |rules|
    ensures SelectRule(buckets, rules[j..])
         == if ConditionMatches(buckets, rules[j].condition) then Success(rules[j].cmds) else SelectRule(buckets, rules[j + 1..])
  {
    assert rules[j..][0] == rules[j] && rules[j..][1..] == rules[j + 1..];
  }

  lemma BucketsStep(files: seq<File>, i: nat)
    requires i < |files|
    ensures var m := Buckets(files[..i]); var e := FileSuffix(files[i].name);
      Buckets(files[..i + 1]) == m[e := (if e in m then m[e] else []) + [files[i]]]
  {
    assert files[..i + 1][..i] == files[..i];
  }

  /** `matchRefreshCmd`: buckets the files by suffix, then scans the rules in order. */
  method MatchRefreshCmd(files: seq<File>, refreshConfigs: seq<RefreshCmd>) returns (r: Result<seq<string>>)
    ensures r == SelectRule(Buckets(files), refreshConfigs)
  {
    var fileMap: map<string, seq<File>> := map[];
    for i := 0 to |files|
      invariant fileMap == Buckets(files[..i])
    {
      var file := files[i];
      var fileSuffix := FileSuffix(file.name);
      BucketsStep(files, i);
      fileMap := fileMap[fileSuffix := (if fileSuffix in fileMap then fileMap[fileSuffix] else []) + [file]];
    }
    assert files[..|files|] == files;
    assert refreshConfigs[0..] == refreshConfigs;
    for j := 0 to |refreshConfigs|
      invariant SelectRule(fileMap, refreshConfigs[j..]) == SelectRule(fileMap, refreshConfigs)
    {
      SelectRuleStep(fileMap, refreshConfigs, j);
      if ConditionMatches(fileMap, refreshConfigs[j].condition) {
        return Success(refreshConfigs[j].cmds);
      }
    }
    assert refreshConfigs[|refreshConfigs|..] == [];
    return Failure(NoMatchRefreshConfig);
  }

  /** The init callback `buildInitFunc` builds: it runs the configured init commands. */
  datatype InitFunc = BuildInitFunc(config: Config, handler: CmdRunHandler) {

    function Effect(execErr: string -> Option<string>): Outcome {
      var run := RunSpec(config.run.init.cmds, execErr);
      Outcome([InitFuncCalled] + ExecEvents(handler.workspace, run.executed), run.err)
    }

    method Invoke(host: Host) returns (err: Option<Error>)
      modifies host
      ensures host.checkout == old(host.checkout)
      ensures host.log == old(host.log) + Effect(host.checkout.execErr).events
      ensures err == Effect(host.checkout.execErr).err
    {
      host.Record(InitFuncCalled);
      err := handler.Run(config.run.init.cmds, host);
    }
  }

  /** The refresh callback `buildRefreshFunc` builds: it matches a rule, then runs its commands. */
  datatype RefreshFunc = BuildRefreshFunc(config: Config, handler: CmdRunHandler) {

    function Effect(files: seq<File>, execErr: string -> Option<string>): Outcome {
      match SelectRule(Buckets(files), config.run.refresh)
      case Failure(e) => Outcome([RefreshFuncCalled(files)], Some(e))
      case Success(cmds) =>
        var run := RunSpec(cmds, execErr);
        Outcome([RefreshFuncCalled(files)] + ExecEvents(handler.workspace, run.executed), run.err)
    }

    method Invoke(files: seq<File>, host: Host) returns (err: Option<Error>)
      modifies host
      ensures host.checkout == old(host.checkout)
      ensures host.log == old(host.log) + Effect(files, host.checkout.execErr).events
      ensures err == Effect(files, host.checkout.execErr).err
    {
      host.Record(RefreshFuncCalled(files));
      var refreshCmds := MatchRefreshCmd(files, config.run.refresh);
      if refreshCmds.Failure? {
        return Some(refreshCmds.error);
      }
      err := handler.Run(refreshCmds.value, host);
    }
  }

  /** When no rule matches, the refresh callback returns the matcher's error and runs no command. */
  lemma RefreshNoMatchRunsNothing(f: RefreshFunc, files: seq<File>, execErr: string -> Option<string>)
    requires forall k :: 0 <= k < |f.config.run.refresh| ==> !ConditionMatches(Buckets(files), f.config.run.refresh[k].condition)
    ensures f.Effect(files, execErr) == Outcome([RefreshFuncCalled(files)], Some(NoMatchRefreshConfig))
  {
  }

  /** When rule `k` is the first that holds, the refresh callback's result is exactly the run of its commands. */
  lemma RefreshRunsFirstMatch(f: RefreshFunc, files: seq<File>, execErr: string -> Option<string>, k: nat)
    requires k < |f.config.run.refresh|
    requires ConditionMatches(Buckets(files), f.config.run.refresh[k].condition)
    requires forall j :: 0 <= j < k ==> !ConditionMatches(Buckets(files), f.config.run.refresh[j].condition)
    ensures var run := RunSpec(f.config.run.refresh[k].cmds, execErr);
      f.Effect(files, execErr)
        == Outcome([RefreshFuncCalled(files)] + ExecEvents(f.handler.workspace, run.executed), run.err)
  {
    SelectRuleFirstMatch(Buckets(files), f.config.run.refresh, k);
  }
}
