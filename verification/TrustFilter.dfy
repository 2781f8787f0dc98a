/** Narrowing declared capabilities by trust level (agents/base.py: `_filter_capabilities_by_trust`, core/trust_levels.py). */
module TrustFilter {
  import opened Common
  import opened Capabilities
  import Glob

  datatype TrustLevel = Quarantine | Probation | Resident | Citizen | TrustedAgent

  datatype Constraints = Constraints(allowed: seq<string>, denied: seq<string>)

  /** The default patterns of each level. */
  function LevelConstraints(level: TrustLevel): Constraints {
    match level
    case Quarantine => Constraints(["internal.*"], ["external.*", "filesystem.*", "agent.spawn"])
    case Probation => Constraints(["internal.*", "filesystem.read:*"],
                                  ["external.*", "filesystem.write:*", "filesystem.delete:*", "agent.spawn"])
    case Resident => Constraints(["*"], ["agent.spawn"])
    case Citizen => Constraints(["*"], [])
    case TrustedAgent => Constraints(["*"], [])
  }

  ghost predicate MatchesSome(patterns: seq<string>, cap: string) {
    exists p :: p in patterns && Glob.Matches(p, cap)
  }

  ghost predicate Survives(c: Constraints, cap: string) {
    !MatchesSome(c.denied, cap) && MatchesSome(c.allowed, cap)
  }

  ghost function Filtered(c: Constraints, caps: seq<string>): seq<string> {
    if caps == [] then []
    else (if Survives(c, caps[0]) then [caps[0]] else []) + Filtered(c, caps[1..])
  }

  lemma {:induction false} FilteredAppend(c: Constraints, caps: seq<string>, cap: string)
    ensures Filtered(c, caps + [cap]) == Filtered(c, caps) + if Survives(c, cap) then [cap] else []
  {
    if caps == [] {
      assert caps + [cap] == [cap];
    } else {
      assert (caps + [cap])[1..] == caps[1..] + [cap];
      FilteredAppend(c, caps[1..], cap);
    }
  }

  /** The loop of the source: denied patterns first, then allowed ones, each stopping at the first hit. */
  method FilterByTrust(c: Constraints, caps: seq<string>) returns (filtered: seq<string>)
    ensures filtered == Filtered(c, caps)
  {
    filtered := [];
    for i := 0 to |caps|
      invariant filtered == Filtered(c, caps[..i])
    {
      var cap := caps[i];
      assert caps[..i + 1] == caps[..i] + [cap];
      FilteredAppend(c, caps[..i], cap);
      var denied := AnyPattern(c.denied, cap);
      if denied {
        continue;
      }
      var allowed := AnyPattern(c.allowed, cap);
      if allowed {
        filtered := filtered + [cap];
      }
    }
    assert caps[..|caps|] == caps;
  }

  /** The inner loops; the extra test for the pattern "*" changes nothing. */
  method AnyPattern(patterns: seq<string>, cap: string) returns (hit: bool)
    ensures hit <==> MatchesSome(patterns, cap)
  {
    hit := false;
    for i := 0 to |patterns|
      invariant !hit
      invariant forall k :: 0 <= k < i ==> !Glob.Matches(patterns[k], cap)
    {
      Glob.SplitMatchesIsMatches(patterns[i], cap);
      Glob.MatchesEverything(cap);
      if Glob.SplitMatches(patterns[i], cap) || patterns[i] == "*" {
        return true;
      }
    }
  }

  lemma {:induction false} FilteredMembers(c: Constraints, caps: seq<string>, s: string)
    ensures s in Filtered(c, caps) <==> s in caps && Survives(c, s)
  {
    if caps != [] {
      FilteredMembers(c, caps[1..], s);
    }
  }

  /** Filtering keeps exactly the survivors, in order. */
  lemma {:induction false} FilteredSelects(c: Constraints, caps: seq<string>) returns (at: seq<nat>)
    ensures Selects(Filtered(c, caps), caps, (s: string) => Survives(c, s), at)
  {
    at := [];
    if caps != [] {
      var tail := FilteredSelects(c, caps[1..]);
      SelectsCons(Filtered(c, caps[1..]), caps, (s: string) => Survives(c, s), tail);
      if Survives(c, caps[0]) {
        at := [0] + Shifted(tail);
      } else {
        at := Shifted(tail);
        assert Filtered(c, caps) == Filtered(c, caps[1..]);
      }
    }
  }

  lemma DifferentHeads(f: string, g: string, s: string)
    requires f != "" && g != "" && f[0] != g[0]
    ensures !(f <= s && g <= s)
  {
  }

  lemma QuarantineSurvivors(s: string)
    ensures Survives(LevelConstraints(Quarantine), s) <==> "internal." <= s
  {
    assert "internal." + "*" == "internal.*" && "external." + "*" == "external.*" && "filesystem." + "*" == "filesystem.*";
    Glob.PrefixPattern("internal.", s);
    Glob.PrefixPattern("external.", s);
    Glob.PrefixPattern("filesystem.", s);
    Glob.LiteralPattern("agent.spawn", s);
    DifferentHeads("internal.", "external.", s);
    DifferentHeads("internal.", "filesystem.", s);
    DifferentHeads("internal.", "agent.spawn", s);
    assert "internal.*" in LevelConstraints(Quarantine).allowed;
  }

  lemma ProbationDenies(s: string)
    requires "internal." <= s || "filesystem.read:" <= s
    ensures !MatchesSome(LevelConstraints(Probation).denied, s)
  {
    assert "external." + "*" == "external.*";
    assert "filesystem.write:" + "*" == "filesystem.write:*" && "filesystem.delete:" + "*" == "filesystem.delete:*";
    HeadsDiffer("external.", s, 0);
    var i := if s[0] == 'i' then 0 else 11;
    HeadsDiffer("filesystem.write:", s, i);
    HeadsDiffer("filesystem.delete:", s, i);
    Glob.LiteralPattern("agent.spawn", s);
  }

  lemma ProbationSurvivors(s: string)
    ensures Survives(LevelConstraints(Probation), s) <==> "internal." <= s || "filesystem.read:" <= s
  {
    assert "internal." + "*" == "internal.*" && "filesystem.read:" + "*" == "filesystem.read:*";
    Glob.PrefixPattern("internal.", s);
    Glob.PrefixPattern("filesystem.read:", s);
    var allowed := LevelConstraints(Probation).allowed;
    assert "internal.*" in allowed && "filesystem.read:*" in allowed;
    if "internal." <= s || "filesystem.read:" <= s {
      ProbationDenies(s);
    }
  }

  /** Which texts each default level lets through. */
  lemma LevelSurvivors(level: TrustLevel, s: string)
    ensures Survives(LevelConstraints(level), s) <==>
              match level
              case Quarantine => "internal." <= s
              case Probation => "internal." <= s || "filesystem.read:" <= s
              case Resident => s != "agent.spawn"
              case Citizen => true
              case TrustedAgent => true
  {
    match level
    case Quarantine => QuarantineSurvivors(s);
    case Probation => ProbationSurvivors(s);
    case _ =>
      Glob.MatchesEverything(s);
      Glob.LiteralPattern("agent.spawn", s);
      assert "*" in LevelConstraints(level).allowed;
  }

  /** The filtered set permits nothing the declared set does not. */
  ghost predicate Narrower(filtered: seq<string>, declared: seq<string>) {
    FromStrings(filtered).Some? && FromStrings(declared).Some? ==>
      forall r, a, t :: Permits(FromStrings(filtered).value, r, a, t) ==> Permits(FromStrings(declared).value, r, a, t)
  }

  /** If every deny rule survives, filtering narrows. */
  lemma SurvivingDeniesNarrow(c: Constraints, declared: seq<string>)
    requires forall s :: s in declared && IsDeny(s) ==> Survives(c, s)
    ensures Narrower(Filtered(c, declared), declared)
  {
    var filtered := Filtered(c, declared);
    if FromStrings(filtered).Some? && FromStrings(declared).Some? {
      var x, y := FromStrings(filtered).value, FromStrings(declared).value;
      forall k | k in x.allow
        ensures k in y.allow
      {
        FromStringsMembers(filtered, k);
        FromStringsMembers(declared, k);
        var s :| s in filtered && !IsDeny(s) && Parse(Body(s)) == Some(k);
        FilteredMembers(c, declared, s);
      }
      forall k | k in y.deny
        ensures k in x.deny
      {
        FromStringsMembers(filtered, k);
        FromStringsMembers(declared, k);
        var s :| s in declared && IsDeny(s) && Parse(Body(s)) == Some(k);
        FilteredMembers(c, declared, s);
      }
      forall r, a, t
        ensures Permits(x, r, a, t) ==> Permits(y, r, a, t)
      {
        PermitsMonotone(x, y, r, a, t);
      }
    }
  }

  // ---------------------------------------------------------------------------------------------
  // The default levels
  // ---------------------------------------------------------------------------------------------

  /** A pattern with the literal head `f` matches nothing that differs from it at place `i`. */
  lemma HeadDiffers(f: string, q: string, t: string, i: nat)
    requires '*' !in f && i < |f| && f[i] != '?' && (i >= |t| || t[i] != f[i])
    ensures !Glob.Matches(f + q, t)
  {
    Glob.FixedPrefix(f, q, t);
  }

  lemma DenySurvivesWildcard(level: TrustLevel, s: string)
    requires level.Resident? || level.Citizen? || level.TrustedAgent?
    requires IsDeny(s)
    ensures Survives(LevelConstraints(level), s)
  {
    Glob.MatchesEverything(s);
    var c := LevelConstraints(level);
    assert "*" in c.allowed;
    HeadDiffers("agent.spawn", "", s, 0);
    assert "agent.spawn" + "" == "agent.spawn";
  }

  /** No capability text starts with "internal", so whatever survives quarantine does not parse. */
  lemma InternalIsNoResource(s: string)
    requires s != "" && s[0] == 'i'
    ensures Parse(s).None?
  {
    if EndsWith(s, ".none") {
      assert |s| >= 5 ==> s[..5][0] == s[0];
      assert WithoutNone(s)[0] == 'i';
    } else {
      var i := WordLength(s);
      assert s[..i] == "" || s[..i][0] == 'i';
    }
  }

  lemma QuarantineSurvivor(s: string)
    requires Survives(LevelConstraints(Quarantine), s)
    ensures s != "" && s[0] == 'i'
  {
    assert Glob.Matches("internal.*", s);
    assert "internal." + "*" == "internal.*";
    Glob.FixedPrefix("internal.", "*", s);
  }

  lemma QuarantineNarrows(declared: seq<string>)
    ensures Narrower(Filtered(LevelConstraints(Quarantine), declared), declared)
  {
    var c := LevelConstraints(Quarantine);
    var filtered := Filtered(c, declared);
    if FromStrings(filtered).Some? {
      FromStringsParses(filtered);
      if filtered != [] {
        var s := filtered[0];
        FilteredMembers(c, declared, s);
        QuarantineSurvivor(s);
        InternalIsNoResource(s);
      }
    }
  }

  const GRANT := Capability(Filesystem, Read, "/data/x")
  const EXCEPTION := Capability(Filesystem, Read, "/data/*")

  lemma HeadsDiffer(f: string, s: string, i: nat)
    requires '*' !in f && i < |f| && f[i] != '?' && (i >= |s| || s[i] != f[i])
    ensures !Glob.Matches(f + "*", s)
  {
    HeadDiffers(f, "*", s, i);
  }

  /** Probation keeps every declared read of the file system. */
  lemma ProbationKeepsReads(path: string)
    ensures Survives(LevelConstraints(Probation), "filesystem.read:" + path)
  {
    var s := "filesystem.read:" + path;
    assert s[0] == 'f' && s[11] == 'r';
    HeadsDiffer("external.", s, 0);
    HeadsDiffer("filesystem.write:", s, 11);
    HeadsDiffer("filesystem.delete:", s, 11);
    HeadDiffers("agent.spawn", "", s, 0);
    assert "external." + "*" == "external.*";
    assert "filesystem.write:" + "*" == "filesystem.write:*" && "filesystem.delete:" + "*" == "filesystem.delete:*";
    assert "agent.spawn" + "" == "agent.spawn";
    ReadsMatch(path);
    assert "filesystem.read:*" in LevelConstraints(Probation).allowed;
  }

  lemma ReadsMatch(path: string)
    ensures Glob.Matches("filesystem.read:*", "filesystem.read:" + path)
  {
    var s := "filesystem.read:" + path;
    assert "filesystem.read:" + "*" == "filesystem.read:*" && s[|"filesystem.read:"|..] == path;
    Glob.FixedPrefix("filesystem.read:", "*", s);
    Glob.MatchesEverything(path);
  }

  lemma ProbationDropsException()
    ensures !Survives(LevelConstraints(Probation), "!" + Print(EXCEPTION))
  {
    var s := "!" + Print(EXCEPTION);
    HeadDiffers("internal.", "*", s, 0);
    HeadDiffers("filesystem.read:", "*", s, 0);
    assert "internal." + "*" == "internal.*" && "filesystem.read:" + "*" == "filesystem.read:*";
  }

  /** The example list, and what is left of it on probation. */
  function ExampleList(): seq<string> {
    [Print(GRANT), "!" + Print(EXCEPTION)]
  }

  lemma ExampleFiltered()
    ensures Filtered(LevelConstraints(Probation), ExampleList()) == [Print(GRANT)]
  {
    var c := LevelConstraints(Probation);
    ProbationKeepsReads("/data/x");
    assert Print(GRANT) == "filesystem.read:" + "/data/x";
    ProbationDropsException();
    assert ExampleList()[1..] == ["!" + Print(EXCEPTION)] && ExampleList()[1..][1..] == [];
    assert Filtered(c, ExampleList()[1..]) == [];
  }

  lemma GrantAndExceptionParse(grant: Capability, deny: Capability)
    requires Printable(grant.scope) && Printable(deny.scope)
    ensures FromStrings([Print(grant)]) == Some(CapabilitySet([grant], []))
    ensures FromStrings([Print(grant), "!" + Print(deny)]) == Some(CapabilitySet([grant], [deny]))
  {
    FromStringsDeny(deny, [], CapabilitySet([], []));
    assert ["!" + Print(deny)] + [] == ["!" + Print(deny)];
    FromStringsAllow(grant, [], CapabilitySet([], []));
    assert [Print(grant)] + [] == [Print(grant)];
    FromStringsAllow(grant, ["!" + Print(deny)], CapabilitySet([], [deny]));
    assert [Print(grant)] + ["!" + Print(deny)] == [Print(grant), "!" + Print(deny)];
    assert [deny] + [] == [deny] && [grant] + [] == [grant];
  }

  lemma ExampleCovered()
    ensures Covers(GRANT, Filesystem, Read, "/data/x") && Covers(EXCEPTION, Filesystem, Read, "/data/x")
  {
    Glob.FixedPrefix("/data/", "*", "/data/x");
    Glob.MatchesEverything("x");
    assert "/data/" + "*" == "/data/*" && "/data/x"[6..] == "x";
    Glob.MatchesItself("/data/x");
  }

  lemma ExceptionDecides(grant: Capability, deny: Capability, r: Resource, a: Action, t: string)
    requires a != Nothing && Covers(grant, r, a, t) && Covers(deny, r, a, t)
    ensures Permits(CapabilitySet([grant], []), r, a, t) && !Permits(CapabilitySet([grant], [deny]), r, a, t)
  {
    PermitsIsAllowed(CapabilitySet([grant], []), r, a, t);
    PermitsIsAllowed(CapabilitySet([grant], [deny]), r, a, t);
    assert grant in [grant] && deny in [deny];
  }

  /** On probation the exception is dropped while the grant it restricts is kept. */
  lemma ProbationWidens()
    ensures !Narrower(Filtered(LevelConstraints(Probation), ExampleList()), ExampleList())
  {
    ExampleFiltered();
    GrantAndExceptionParse(GRANT, EXCEPTION);
    ExampleCovered();
    ExceptionDecides(GRANT, EXCEPTION, Filesystem, Read, "/data/x");
  }

  /** With the default patterns, filtering narrows every declared list exactly at the levels other than probation. */
  lemma DefaultLevelsNarrow(level: TrustLevel)
    ensures (forall declared :: Narrower(Filtered(LevelConstraints(level), declared), declared)) <==> !level.Probation?
  {
    match level
    case Probation => ProbationWidens();
    case Quarantine =>
      forall declared
        ensures Narrower(Filtered(LevelConstraints(level), declared), declared)
      {
        QuarantineNarrows(declared);
      }
    case _ =>
      forall declared
        ensures Narrower(Filtered(LevelConstraints(level), declared), declared)
      {
        forall s | s in declared && IsDeny(s)
          ensures Survives(LevelConstraints(level), s)
        {
          DenySurvivesWildcard(level, s);
        }
        SurvivingDeniesNarrow(LevelConstraints(level), declared);
      }
  }

  // ---------------------------------------------------------------------------------------------
  // Which lists probation narrows
  // ---------------------------------------------------------------------------------------------

  lemma InternalDoesNotParse(s: string)
    ensures Glob.Matches("internal.*", s) ==> !IsDeny(s) && Parse(s).None?
  {
    assert "internal." + "*" == "internal.*";
    Glob.FixedPrefix("internal.", "*", s);
    if Glob.Matches("internal.*", s) {
      InternalIsNoResource(s);
    }
  }

  /** A text that starts like a read of the file system parses as one or not at all. */
  lemma ReadsParseAsReads(rest: string)
    ensures var c := Parse("filesystem.read:" + rest);
            c.Some? ==> c.value.resource == Filesystem && c.value.action == Read
  {
    var s := "filesystem.read:" + rest;
    assert s[15] == ':';
    if EndsWith(s, ".none") {
      WithoutNoneKeepsColon(s);
      NoColonInNames(WithoutNone(s));
    } else {
      assert "filesystem" + "." + "read" + ":" + rest == s;
      SplitsBack("filesystem", "read", rest);
    }
  }

  lemma ReadsSplit(s: string)
    ensures Glob.Matches("filesystem.read:*", s) ==> |s| >= 16 && s == "filesystem.read:" + s[16..]
  {
    assert "filesystem.read:" + "*" == "filesystem.read:*";
    LiteralHead("filesystem.read:", s);
  }

  lemma LiteralHead(f: string, s: string)
    requires '*' !in f && '?' !in f
    ensures Glob.Matches(f + "*", s) ==> |s| >= |f| && s == f + s[|f|..]
  {
    Glob.FixedPrefix(f, "*", s);
    if Glob.Matches(f + "*", s) {
      assert s[..|f|] == f;
    }
  }

  /** On probation every kept rule that parses allows reads of the file system. */
  lemma ProbationSurvivor(s: string)
    requires Survives(LevelConstraints(Probation), s)
    ensures !IsDeny(s)
    ensures Parse(s).Some? ==> Parse(s).value.resource == Filesystem && Parse(s).value.action == Read
  {
    InternalDoesNotParse(s);
    ReadsSplit(s);
    if !Glob.Matches("internal.*", s) {
      assert Glob.Matches("filesystem.read:*", s);
      ReadsParseAsReads(s[16..]);
      assert s[0] == 'f';
    }
  }

  lemma KeptOnProbation(declared: seq<string>, k: Capability)
    requires FromStrings(declared).Some? && FromStrings(Filtered(LevelConstraints(Probation), declared)).Some?
    ensures var x := FromStrings(Filtered(LevelConstraints(Probation), declared)).value;
            && k !in x.deny
            && (k in x.allow ==>
                  k.resource == Filesystem && k.action == Read && k in FromStrings(declared).value.allow)
  {
    var filtered := Filtered(LevelConstraints(Probation), declared);
    FromStringsMembers(filtered, k);
    FromStringsMembers(declared, k);
    forall s | s in filtered
      ensures s in declared && !IsDeny(s)
      ensures Parse(s).Some? ==> Parse(s).value.resource == Filesystem && Parse(s).value.action == Read
    {
      FilteredMembers(LevelConstraints(Probation), declared, s);
      ProbationSurvivor(s);
    }
  }

  lemma KeptParses(c: Constraints, declared: seq<string>)
    requires FromStrings(declared).Some?
    ensures FromStrings(Filtered(c, declared)).Some?
  {
    FromStringsParses(declared);
    FromStringsParses(Filtered(c, declared));
    forall s | s in Filtered(c, declared)
      ensures s in declared
    {
      FilteredMembers(c, declared, s);
    }
  }

  predicate DeniesReads(d: Capability) {
    d.resource == Filesystem && d.action == Read
  }

  /** A declared deny rule for reads matches no target of a kept grant. */
  ghost predicate GrantsAvoidDenies(kept: CapabilitySet, declared: CapabilitySet) {
    forall g, d, t :: g in kept.allow && d in declared.deny && DeniesReads(d) && Glob.Matches(g.scope, t) ==>
                        !Glob.Matches(d.scope, t)
  }

  /**
   * On probation, filtering narrows a list that parses if and only if no kept grant shares a target with a declared
   * rule that denies reading the file system.
   */
  lemma ProbationNarrowsIff(declared: seq<string>)
    requires FromStrings(declared).Some?
    ensures var filtered := Filtered(LevelConstraints(Probation), declared);
            && FromStrings(filtered).Some?
            && (Narrower(filtered, declared) <==>
                  GrantsAvoidDenies(FromStrings(filtered).value, FromStrings(declared).value))
  {
    var filtered := Filtered(LevelConstraints(Probation), declared);
    KeptParses(LevelConstraints(Probation), declared);
    var x, y := FromStrings(filtered).value, FromStrings(declared).value;
    forall k
      ensures k !in x.deny
      ensures k in x.allow ==> k.resource == Filesystem && k.action == Read && k in y.allow
    {
      KeptOnProbation(declared, k);
    }
    SetsNarrowIff(x, y);
  }

  lemma SetsNarrowIff(x: CapabilitySet, y: CapabilitySet)
    requires forall k :: k !in x.deny
    requires forall k :: k in x.allow ==> k.resource == Filesystem && k.action == Read && k in y.allow
    ensures (forall r, a, t :: Permits(x, r, a, t) ==> Permits(y, r, a, t)) <==> GrantsAvoidDenies(x, y)
  {
    forall r, a, t
      ensures Permits(x, r, a, t) <==> Allowed(x, r, a, t)
      ensures Permits(y, r, a, t) <==> Allowed(y, r, a, t)
    {
      PermitsIsAllowed(x, r, a, t);
      PermitsIsAllowed(y, r, a, t);
    }
    if forall r, a, t :: Permits(x, r, a, t) ==> Permits(y, r, a, t) {
      forall g, d, t | g in x.allow && d in y.deny && DeniesReads(d) && Glob.Matches(g.scope, t)
        ensures !Glob.Matches(d.scope, t)
      {
        assert Covers(g, Filesystem, Read, t);
        assert Permits(x, Filesystem, Read, t) && Permits(y, Filesystem, Read, t);
        assert !Covers(d, Filesystem, Read, t);
      }
    }
    if GrantsAvoidDenies(x, y) {
      forall r, a, t | Permits(x, r, a, t)
        ensures Permits(y, r, a, t)
      {
        var c :| c in x.allow && Covers(c, r, a, t);
        assert c in y.allow;
      }
    }
  }
}
