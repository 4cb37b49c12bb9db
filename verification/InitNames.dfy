/** Logical model names for a freshly discovered gateway configuration (cmd/private-gateway/init.go). */
module InitNames {
  import opened Decimals
  import opened Templates

  /** One reachable runtime and the models it reports. */
  datatype RuntimeCandidate = RuntimeCandidate(runtime: string, endpoint: string, models: seq<string>)

  datatype ModelDef = ModelDef(logicalName: string, runtime: string, endpoint: string, physicalModel: string)

  // ---------------------------------------------------------------- sanitising

  predicate Plain(ch: char) {
    'a' <= ch <= 'z' || '0' <= ch <= '9' || ch == '.' || ch == '_' || ch == '-'
  }

  /** Replaces every longest run of other characters by one dash. */
  function ReplaceRuns(s: string, inRun: bool): string {
    if s == "" then ""
    else if Plain(s[0]) then [s[0]] + ReplaceRuns(s[1..], false)
    else (if inRun then "" else "-") + ReplaceRuns(s[1..], true)
  }

  function TrimLeft(s: string, ch: char): string {
    if s != "" && s[0] == ch then TrimLeft(s[1..], ch) else s
  }

  function TrimRight(s: string, ch: char): string {
    if s != "" && s[|s| - 1] == ch then TrimRight(s[..|s| - 1], ch) else s
  }

  /** `lower` is the library's lower-casing. */
  function Sanitize(physical: string, lower: string -> string): string {
    var name := TrimRight(TrimLeft(ReplaceRuns(lower(physical), false), '-'), '-');
    if name == "" then "model" else name
  }

  predicate WellFormedName(name: string) {
    name != "" && (forall ch <- name :: Plain(ch)) && name[0] != '-' && name[|name| - 1] != '-'
  }

  lemma {:induction false} ReplaceRunsIsPlain(s: string, inRun: bool)
    ensures forall ch <- ReplaceRuns(s, inRun) :: Plain(ch)
  {
    if s != "" {
      ReplaceRunsIsPlain(s[1..], !Plain(s[0]));
    }
  }

  lemma {:induction false} TrimLeftIsSuffix(s: string, ch: char)
    ensures forall x <- TrimLeft(s, ch) :: x in s
    ensures TrimLeft(s, ch) != "" ==> TrimLeft(s, ch)[0] != ch
  {
    if s != "" && s[0] == ch {
      TrimLeftIsSuffix(s[1..], ch);
    }
  }

  lemma {:induction false} TrimRightIsPrefix(s: string, ch: char)
    ensures TrimRight(s, ch) <= s
    ensures TrimRight(s, ch) != "" ==> TrimRight(s, ch)[|TrimRight(s, ch)| - 1] != ch
  {
    if s != "" && s[|s| - 1] == ch {
      TrimRightIsPrefix(s[..|s| - 1], ch);
    }
  }

  /** Whatever the runtime reports, the derived name is usable, and a usable lower-case name is kept. */
  lemma SanitizeGivesUsableNames(physical: string, lower: string -> string)
    ensures WellFormedName(Sanitize(physical, lower))
    ensures WellFormedName(physical) && lower(physical) == physical ==> Sanitize(physical, lower) == physical
  {
    var plain := ReplaceRuns(lower(physical), false);
    var left := TrimLeft(plain, '-');
    ReplaceRunsIsPlain(lower(physical), false);
    TrimLeftIsSuffix(plain, '-');
    TrimRightIsPrefix(left, '-');
    if WellFormedName(physical) && lower(physical) == physical {
      PlainIsKept(physical);
    }
  }

  lemma {:induction false} PlainIsKept(s: string)
    requires forall ch <- s :: Plain(ch)
    ensures ReplaceRuns(s, false) == s
  {
    if s != "" {
      assert s[0] in s;
      PlainIsKept(s[1..]);
    }
  }

  // ---------------------------------------------------------------- numbering

  function Numbered(base: string, n: nat): string {
    base + "-" + Decimal(n)
  }

  /** The name tried first, and then with the numbers 2, 3, ... */
  function Attempt(base: string, k: nat): string {
    if k == 0 then base else Numbered(base, k + 1)
  }

  lemma AttemptsDiffer(base: string, j: nat, k: nat)
    requires j != k
    ensures Attempt(base, j) != Attempt(base, k)
  {
    if j == 0 {
      assert |Attempt(base, k)| > |base|;
    } else if k == 0 {
      assert |Attempt(base, j)| > |base|;
    } else if Attempt(base, j) == Attempt(base, k) {
      var cut := |base| + 1;
      assert Attempt(base, j)[cut..] == Decimal(j + 1) && Attempt(base, k)[cut..] == Decimal(k + 1);
      DecimalIsInjective(j + 1, k + 1);
    }
  }

  /** The first `n` attempts. */
  function Attempts(base: string, n: nat): set<string> {
    set k | 0 <= k < n :: Attempt(base, k)
  }

  lemma AttemptsGrow(base: string, n: nat)
    requires n > 0
    ensures Attempts(base, n) == Attempts(base, n - 1) + {Attempt(base, n - 1)}
  {
    hide Attempt;
  }

  lemma LastAttemptIsNew(base: string, n: nat)
    ensures Attempt(base, n) !in Attempts(base, n)
  {
    forall k | 0 <= k < n ensures Attempt(base, k) != Attempt(base, n) {
      AttemptsDiffer(base, k, n);
    }
  }

  lemma {:induction false} AttemptsCount(base: string, n: nat)
    ensures |Attempts(base, n)| == n
  {
    hide Attempts, Attempt;
    if n == 0 {
      NoAttempts(base);
    } else {
      AttemptsCount(base, n - 1);
      AttemptsGrow(base, n);
      LastAttemptIsNew(base, n - 1);
    }
  }

  lemma NoAttempts(base: string)
    ensures Attempts(base, 0) == {}
  {
  }

  lemma Pigeonhole(used: set<string>, base: string, n: nat)
    requires Attempts(base, n) <= used
    ensures n <= |used|
  {
    AttemptsCount(base, n);
    assert used == Attempts(base, n) + (used - Attempts(base, n));
  }

  ghost predicate IsFirstFree(used: set<string>, base: string, t: nat, name: string) {
    && t <= |used| && name == Attempt(base, t) && name !in used
    && forall k :: 0 <= k < t ==> Attempt(base, k) in used
  }

  /** The renaming loop: the first attempt that is free, found within |used| + 1 attempts. */
  method FreeName(used: set<string>, base: string) returns (logical: string)
    ensures exists t: nat :: IsFirstFree(used, base, t, logical)
  {
    ghost var tries: nat := 0;
    logical := base;
    var n := 2;
    while logical in used
      invariant n == tries + 2 && logical == Attempt(base, tries)
      invariant forall k :: 0 <= k < tries ==> Attempt(base, k) in used
      decreases |used| - tries
    {
      Pigeonhole(used, base, tries + 1);
      logical := base + "-" + Decimal(n);
      n := n + 1;
      tries := tries + 1;
    }
    Pigeonhole(used, base, tries);
    assert IsFirstFree(used, base, tries, logical);
  }

  // ---------------------------------------------------------------- the configuration

  /** One reported model with the runtime that reported it. */
  datatype Report = Report(runtime: string, endpoint: string, physical: string)

  function ReportsOf(c: RuntimeCandidate, n: nat): seq<Report>
    requires n <= |c.models|
  {
    seq(n, i requires 0 <= i < n => Report(c.runtime, c.endpoint, c.models[i]))
  }

  function Reported(candidates: seq<RuntimeCandidate>): seq<Report> {
    if candidates == [] then [] else
    var last := candidates[|candidates| - 1];
    Reported(candidates[..|candidates| - 1]) + ReportsOf(last, |last.models|)
  }

  function Names(models: seq<ModelDef>): set<string> {
    set m | m in models :: m.logicalName
  }

  /** The last entry of `models` was built from `r`, with the first name that its predecessors left free. */
  ghost predicate FirstFit(before: seq<ModelDef>, m: ModelDef, r: Report, lower: string -> string) {
    && m.runtime == r.runtime && m.physicalModel == r.physical && m.endpoint == TrimRight(r.endpoint, '/')
    && exists t: nat :: IsFirstFree(Names(before), Sanitize(r.physical, lower), t, m.logicalName)
  }

  /** One entry per report, each with the first free name. */
  ghost predicate Builds(models: seq<ModelDef>, reports: seq<Report>, lower: string -> string) {
    && |models| == |reports|
    && forall i :: 0 <= i < |models| ==> FirstFit(models[..i], models[i], reports[i], lower)
  }

  lemma BuildsStep(models: seq<ModelDef>, reports: seq<Report>, lower: string -> string, m: ModelDef, r: Report)
    requires Builds(models, reports, lower) && FirstFit(models, m, r, lower)
    ensures Builds(models + [m], reports + [r], lower)
    ensures Names(models + [m]) == Names(models) + {m.logicalName}
  {
    hide FirstFit;
    var all := models + [m];
    forall i | 0 <= i < |all| ensures FirstFit(all[..i], all[i], (reports + [r])[i], lower) {
      assert all[..i] == models[..i];
      assert models[..|models|] == models;
    }
  }

  method BuildInitConfig(candidates: seq<RuntimeCandidate>, lower: string -> string) returns (models: seq<ModelDef>)
    ensures Builds(models, Reported(candidates), lower)
  {
    hide Sanitize, TrimRight, FirstFit, Builds, Names;
    models := [];
    var used: set<string> := {};
    assert Builds([], [], lower) && Names([]) == {} by { BuildsNothing(lower); }
    for i := 0 to |candidates|
      invariant used == Names(models) && Builds(models, Reported(candidates[..i]), lower)
    {
      var c := candidates[i];
      ghost var before := Reported(candidates[..i]);
      assert before + ReportsOf(c, 0) == before;
      for j := 0 to |c.models|
        invariant used == Names(models) && Builds(models, before + ReportsOf(c, j), lower)
      {
        var physical := c.models[j];
        var logical := FreeName(used, Sanitize(physical, lower));
        used := used + {logical};
        var m := ModelDef(logical, c.runtime, TrimRight(c.endpoint, '/'), physical);
        FreeNameFits(models, m, Report(c.runtime, c.endpoint, physical), lower);
        BuildsStep(models, before + ReportsOf(c, j), lower, m, Report(c.runtime, c.endpoint, physical));
        assert before + ReportsOf(c, j + 1) == before + ReportsOf(c, j) + [Report(c.runtime, c.endpoint, physical)];
        models := models + [m];
      }
      assert candidates[..i + 1][..i] == candidates[..i];
    }
    assert candidates[..|candidates|] == candidates;
  }

  lemma BuildsNothing(lower: string -> string)
    ensures Builds([], [], lower) && Names([]) == {}
  {
  }

  lemma FreeNameFits(models: seq<ModelDef>, m: ModelDef, r: Report, lower: string -> string)
    requires m.runtime == r.runtime && m.physicalModel == r.physical && m.endpoint == TrimRight(r.endpoint, '/')
    requires exists t: nat :: IsFirstFree(Names(models), Sanitize(r.physical, lower), t, m.logicalName)
    ensures FirstFit(models, m, r, lower)
  {
    hide IsFirstFree, Sanitize, TrimRight;
  }

  /** For every list of candidates: one entry per reported model, and no two entries share a name. */
  lemma NamesAreDistinct(models: seq<ModelDef>, candidates: seq<RuntimeCandidate>, lower: string -> string)
    requires Builds(models, Reported(candidates), lower)
    ensures |models| == |Reported(candidates)|
    ensures forall i, j :: 0 <= i < j < |models| ==> models[i].logicalName != models[j].logicalName
  {
    forall i, j | 0 <= i < j < |models| ensures models[i].logicalName != models[j].logicalName {
      assert FirstFit(models[..j], models[j], Reported(candidates)[j], lower);
      assert models[..j][i] == models[i];
      assert models[i].logicalName in Names(models[..j]);
    }
  }

  lemma FirstFitIsUnique(before: seq<ModelDef>, m: ModelDef, n: ModelDef, r: Report, lower: string -> string)
    requires FirstFit(before, m, r, lower) && FirstFit(before, n, r, lower)
    ensures m == n
  {
    hide Sanitize, Attempt;
    var base := Sanitize(r.physical, lower);
    var t: nat :| IsFirstFree(Names(before), base, t, m.logicalName);
    var u: nat :| IsFirstFree(Names(before), base, u, n.logicalName);
  }

  /** The configuration is determined by the candidates: the same discovery gives the same names again. */
  lemma {:induction false} BuildIsDeterministic(a: seq<ModelDef>, b: seq<ModelDef>, reports: seq<Report>,
                                                lower: string -> string)
    requires Builds(a, reports, lower) && Builds(b, reports, lower)
    ensures a == b
    decreases |reports|
  {
    hide FirstFit;
    if reports != [] {
      var n := |reports| - 1;
      forall i | 0 <= i < n
        ensures a[..n][..i] == a[..i] && b[..n][..i] == b[..i] {
      }
      BuildIsDeterministic(a[..n], b[..n], reports[..n], lower);
      FirstFitIsUnique(a[..n], a[n], b[n], reports[n], lower);
      assert a == a[..n] + [a[n]] && b == b[..n] + [b[n]];
    }
  }

  /** The characters that a name keeps, and the names tried in turn. */
  lemma NamesAreSpelled(ch: char, base: string, k: nat)
    ensures Plain(ch) <==> ch in LOWER || ch in DIGITS || ch == '.' || ch == '_' || ch == '-'
    ensures Attempt(base, k) == if k == 0 then base else base + "-" + Decimal(k + 1)
  {
    LowerCharacters(ch);
    DigitCharacters(ch);
    hide LOWER, DIGITS;
  }

  /** A run of other characters becomes one dash between what is kept around it. */
  lemma {:induction false} ForeignRunsBecomeOneDash(left: string, foreign: string, right: string)
    requires WellFormedName(left) && foreign != "" && (forall ch <- foreign :: !Plain(ch)) && WellFormedName(right)
    ensures Sanitize(left + foreign + right, s => s) == left + "-" + right
  {
    ReplaceAfter(left, foreign + right);
    assert left + (foreign + right) == left + foreign + right;
    DashOnce(foreign, right, false);
    PlainIsKept(right);
    var name := left + "-" + right;
    assert ReplaceRuns(left + foreign + right, false) == name;
    assert name[0] == left[0] && name[|name| - 1] == right[|right| - 1];
  }

  /** A name of nothing but other characters is called `model`. */
  lemma NothingUsableIsCalledModel(foreign: string)
    requires forall ch <- foreign :: !Plain(ch)
    ensures Sanitize(foreign, s => s) == "model"
  {
    NothingLeft(foreign, false);
    var dashes := ReplaceRuns(foreign, false);
    assert dashes == "" || dashes == "-";
    assert "-"[1..] == "";
  }

  lemma {:induction false} NothingLeft(foreign: string, inRun: bool)
    requires forall ch <- foreign :: !Plain(ch)
    ensures ReplaceRuns(foreign, inRun) == if foreign != "" && !inRun then "-" else ""
  {
    if foreign != "" {
      assert foreign[0] in foreign;
      NothingLeft(foreign[1..], true);
    }
  }

  lemma {:induction false} ReplaceAfter(left: string, rest: string)
    requires forall ch <- left :: Plain(ch)
    ensures ReplaceRuns(left + rest, false) == left + ReplaceRuns(rest, false)
  {
    if left == "" {
      assert left + rest == rest;
    } else {
      assert left[0] in left && (left + rest)[1..] == left[1..] + rest;
      ReplaceAfter(left[1..], rest);
      assert left == [left[0]] + left[1..];
    }
  }

  lemma {:induction false} DashOnce(foreign: string, right: string, inRun: bool)
    requires (forall ch <- foreign :: !Plain(ch)) && right != "" && Plain(right[0])
    ensures ReplaceRuns(foreign + right, inRun)
      == (if foreign != "" && !inRun then "-" else "") + ReplaceRuns(right, false)
  {
    if foreign == "" {
      assert foreign + right == right;
      assert ReplaceRuns(right, true) == ReplaceRuns(right, false);
    } else {
      assert foreign[0] in foreign && (foreign + right)[1..] == foreign[1..] + right;
      DashOnce(foreign[1..], right, true);
    }
  }

  /** Endpoints lose the slashes at their end and nothing else. */
  lemma EndpointsAreTrimmed(models: seq<ModelDef>, candidates: seq<RuntimeCandidate>, lower: string -> string, i: nat)
    requires Builds(models, Reported(candidates), lower) && i < |models|
    ensures var whole, e := Reported(candidates)[i].endpoint, models[i].endpoint;
      && e <= whole && (e != "" ==> e[|e| - 1] != '/') && forall ch <- whole[|e|..] :: ch == '/'
  {
    assert FirstFit(models[..i], models[i], Reported(candidates)[i], lower);
    hide FirstFit, Builds, Reported;
    TrimRightIsPrefix(Reported(candidates)[i].endpoint, '/');
    OnlyTrimmed(Reported(candidates)[i].endpoint, '/');
  }

  lemma {:induction false} OnlyTrimmed(s: string, ch: char)
    ensures TrimRight(s, ch) <= s && forall x <- s[|TrimRight(s, ch)|..] :: x == ch
  {
    if s != "" && s[|s| - 1] == ch {
      var n := |s| - 1;
      OnlyTrimmed(s[..n], ch);
      var t := |TrimRight(s, ch)|;
      assert s[t..] == s[..n][t..] + [s[n]];
    }
  }
}
