/** The capability language: parsing, printing, evaluation and persistence (core/capabilities.py). */
module Capabilities {
  import opened Common
  import Glob

  datatype Resource = Filesystem | External | Mqtt | Ollama | Redis | Agent

  /** `Nothing` is the action written "none". */
  datatype Action = Read | Write | Execute | Publish | Subscribe | Manage | Nothing

  datatype Capability = Capability(resource: Resource, action: Action, scope: string)

  datatype CapabilitySet = CapabilitySet(allow: seq<Capability>, deny: seq<Capability>)

  // ---------------------------------------------------------------------------------------------
  // Names
  // ---------------------------------------------------------------------------------------------

  function ResourceName(r: Resource): string {
    match r
    case Filesystem => "filesystem"
    case External => "external"
    case Mqtt => "mqtt"
    case Ollama => "ollama"
    case Redis => "redis"
    case Agent => "agent"
  }

  function ActionName(a: Action): string {
    match a
    case Read => "read"
    case Write => "write"
    case Execute => "execute"
    case Publish => "publish"
    case Subscribe => "subscribe"
    case Manage => "manage"
    case Nothing => "none"
  }

  function ResourceOf(s: string): Option<Resource> {
    if s == "filesystem" then Some(Filesystem)
    else if s == "external" then Some(External)
    else if s == "mqtt" then Some(Mqtt)
    else if s == "ollama" then Some(Ollama)
    else if s == "redis" then Some(Redis)
    else if s == "agent" then Some(Agent)
    else None
  }

  function ActionOf(s: string): Option<Action> {
    if s == "read" then Some(Read)
    else if s == "write" then Some(Write)
    else if s == "execute" then Some(Execute)
    else if s == "publish" then Some(Publish)
    else if s == "subscribe" then Some(Subscribe)
    else if s == "manage" then Some(Manage)
    else if s == "none" then Some(Nothing)
    else None
  }

  // ---------------------------------------------------------------------------------------------
  // Parsing
  // ---------------------------------------------------------------------------------------------

  predicate EndsWith(s: string, suffix: string) {
    |suffix| <= |s| && s[|s| - |suffix|..] == suffix
  }

  /** `s.replace(".none", "")`: every occurrence goes, left to right. */
  function WithoutNone(s: string): string {
    if s == "" then ""
    else if |s| >= 5 && s[..5] == ".none" then WithoutNone(s[5..])
    else [s[0]] + WithoutNone(s[1..])
  }

  /** `\w` on ASCII. */
  predicate IsWordChar(c: char) {
    'a' <= c <= 'z' || 'A' <= c <= 'Z' || '0' <= c <= '9' || c == '_'
  }

  /** The length of the longest prefix of word characters. */
  function WordLength(s: string): (n: nat)
    ensures n <= |s|
  {
    if s == "" || !IsWordChar(s[0]) then 0 else 1 + WordLength(s[1..])
  }

  /** The length of the text before the first newline. */
  function LineLength(s: string): (n: nat)
    ensures n <= |s|
    ensures forall i :: 0 <= i < n ==> s[i] != '\n'
    ensures n < |s| ==> s[n] == '\n'
  {
    if s == "" || s[0] == '\n' then 0 else 1 + LineLength(s[1..])
  }

  /** `(.+)$`: one non-empty line; `$` also accepts a single newline at the very end, which is not captured. */
  function LastLine(s: string): Option<string> {
    var n := LineLength(s);
    if n > 0 && |s| <= n + 1 then Some(s[..n]) else None
  }

  /** `^(\w+)\.(\w+):(.+)$`, then the two enum lookups. */
  function ParseScoped(s: string): Option<Capability> {
    var i := WordLength(s);
    if i == 0 || i == |s| || s[i] != '.' then None
    else
      var t := s[i + 1..];
      var j := WordLength(t);
      if j == 0 || j == |t| || t[j] != ':' then None
      else
        var scope := LastLine(t[j + 1..]);
        var resource := ResourceOf(s[..i]);
        var action := ActionOf(t[..j]);
        if scope.Some? && resource.Some? && action.Some? then
          Some(Capability(resource.value, action.value, scope.value))
        else
          None
  }

  /** `Capability.from_string`; None stands for the ValueError. */
  function Parse(s: string): Option<Capability> {
    if EndsWith(s, ".none") then
      var resource := ResourceOf(WithoutNone(s));
      if resource.Some? then Some(Capability(resource.value, Nothing, "*")) else None
    else
      ParseScoped(s)
  }

  /** `str(capability)`. */
  function Print(c: Capability): string {
    ResourceName(c.resource) + "." + ActionName(c.action) + ":" + c.scope
  }

  // ---------------------------------------------------------------------------------------------
  // Printing and parsing back
  // ---------------------------------------------------------------------------------------------

  /** The scopes that survive being printed and parsed. */
  predicate Printable(scope: string) {
    scope != "" && '\n' !in scope && !EndsWith(scope, ".none")
  }

  lemma {:induction false} WordLengthStops(w: string, rest: string)
    requires forall i :: 0 <= i < |w| ==> IsWordChar(w[i])
    requires rest != "" && !IsWordChar(rest[0])
    ensures WordLength(w + rest) == |w|
  {
    if w == "" {
      assert w + rest == rest;
    } else {
      assert (w + rest)[1..] == w[1..] + rest;
      WordLengthStops(w[1..], rest);
    }
  }

  lemma NamesAreWords(c: Capability)
    ensures forall i :: 0 <= i < |ResourceName(c.resource)| ==> IsWordChar(ResourceName(c.resource)[i])
    ensures forall i :: 0 <= i < |ActionName(c.action)| ==> IsWordChar(ActionName(c.action)[i])
    ensures ResourceName(c.resource) != "" && ActionName(c.action) != ""
  {
  }

  lemma NamesRoundTrip(c: Capability)
    ensures ResourceOf(ResourceName(c.resource)) == Some(c.resource)
    ensures ActionOf(ActionName(c.action)) == Some(c.action)
  {
  }

  /** A word, a separator and the rest come apart again. */
  lemma WordStops(w: string, separator: char, rest: string)
    requires (forall i :: 0 <= i < |w| ==> IsWordChar(w[i])) && !IsWordChar(separator)
    ensures var s := w + [separator] + rest;
            WordLength(s) == |w| && s[|w|] == separator && s[..|w|] == w && s[|w| + 1..] == rest
  {
    WordLengthStops(w, [separator] + rest);
    assert w + ([separator] + rest) == w + [separator] + rest;
  }

  lemma SplitsBack(r: string, a: string, scope: string)
    requires forall i :: 0 <= i < |r| ==> IsWordChar(r[i])
    requires forall i :: 0 <= i < |a| ==> IsWordChar(a[i])
    ensures var s := r + "." + a + ":" + scope; var t := a + ":" + scope;
            && WordLength(s) == |r| && s[|r|] == '.' && s[..|r|] == r && s[|r| + 1..] == t
            && WordLength(t) == |a| && t[|a|] == ':' && t[..|a|] == a && t[|a| + 1..] == scope
  {
    var t := a + ":" + scope;
    assert r + "." + a + ":" + scope == r + "." + t;
    WordStops(r, '.', t);
    WordStops(a, ':', scope);
  }

  lemma ScopedRoundTrip(c: Capability)
    ensures ParseScoped(Print(c)) ==
            (var scope := LastLine(c.scope);
             if scope.Some? then Some(Capability(c.resource, c.action, scope.value)) else None)
  {
    NamesAreWords(c);
    NamesRoundTrip(c);
    SplitsBack(ResourceName(c.resource), ActionName(c.action), c.scope);
  }

  lemma {:induction false} WithoutNoneKeepsColon(s: string)
    requires ':' in s
    ensures ':' in WithoutNone(s)
  {
    if |s| >= 5 && s[..5] == ".none" {
      assert s == ".none" + s[5..];
      WithoutNoneKeepsColon(s[5..]);
    } else if s[0] != ':' {
      assert s == [s[0]] + s[1..];
      WithoutNoneKeepsColon(s[1..]);
    }
  }

  lemma NoColonInNames(s: string)
    requires ':' in s
    ensures ResourceOf(s).None?
  {
  }

  lemma LongSuffixHasColon(head: string, scope: string, suffix: string)
    requires EndsWith(head + ":" + scope, suffix) && |scope| < |suffix|
    ensures ':' in suffix
  {
    var s := head + ":" + scope;
    assert suffix[|suffix| - |scope| - 1] == s[|head|];
  }

  /** A suffix without a colon that ends `head + ":" + scope` lies inside the scope. */
  lemma SuffixInScope(head: string, scope: string, suffix: string)
    requires ':' !in suffix
    ensures EndsWith(head + ":" + scope, suffix) <==> EndsWith(scope, suffix)
  {
    var s := head + ":" + scope;
    if |suffix| <= |scope| {
      assert s[|s| - |suffix|..] == scope[|scope| - |suffix|..];
    } else if EndsWith(s, suffix) {
      LongSuffixHasColon(head, scope, suffix);
    }
  }

  lemma LastLineIsWhole(scope: string)
    ensures LastLine(scope) == Some(scope) <==> scope != "" && '\n' !in scope
  {
    var n := LineLength(scope);
    if '\n' in scope {
      var i :| 0 <= i < |scope| && scope[i] == '\n';
      assert n < |scope|;
    } else {
      assert n == |scope| && scope[..n] == scope;
    }
  }

  /** Parsing a printed capability gives it back exactly for the printable scopes. */
  lemma PrintParseRoundTrip(c: Capability)
    ensures Parse(Print(c)) == Some(c) <==> Printable(c.scope)
  {
    var head := ResourceName(c.resource) + "." + ActionName(c.action);
    assert Print(c) == head + ":" + c.scope;
    SuffixInScope(head, c.scope, ".none");
    ScopedRoundTrip(c);
    LastLineIsWhole(c.scope);
    if EndsWith(Print(c), ".none") {
      assert Print(c)[|head|] == ':';
      WithoutNoneKeepsColon(Print(c));
      NoColonInNames(WithoutNone(Print(c)));
    }
  }

  lemma CutAt(s: string, i: nat)
    requires i < |s|
    ensures s == s[..i] + [s[i]] + s[i + 1..]
  {
  }

  lemma Regroup(x: string, y: string, rest: string)
    ensures x + "." + (y + ":" + rest) == (x + "." + y) + ":" + rest
  {
  }

  lemma ScopedSplit(s: string) returns (head: string, rest: string)
    requires ParseScoped(s).Some?
    ensures s == head + ":" + rest && LastLine(rest) == Some(ParseScoped(s).value.scope)
  {
    var i := WordLength(s);
    var t := s[i + 1..];
    var j := WordLength(t);
    CutAt(s, i);
    CutAt(t, j);
    Regroup(s[..i], t[..j], t[j + 1..]);
    head, rest := s[..i] + "." + t[..j], t[j + 1..];
  }

  /** What the structured branch of the parser has read: some head, a colon and one line. */
  lemma ScopedShape(s: string) returns (head: string)
    requires ParseScoped(s).Some?
    ensures var scope := ParseScoped(s).value.scope;
            && (s == head + ":" + scope || s == head + ":" + scope + "\n")
            && scope != "" && '\n' !in scope
  {
    var rest;
    head, rest := ScopedSplit(s);
    LastLineShape(rest);
    var line := LastLine(rest).value;
    assert head + ":" + (line + "\n") == head + ":" + line + "\n";
  }

  lemma LastLineShape(rest: string)
    requires LastLine(rest).Some?
    ensures var line := LastLine(rest).value;
            (rest == line || rest == line + "\n") && line != "" && '\n' !in line
  {
    var n := LineLength(rest);
    assert rest == rest[..n] + rest[n..];
    assert rest[n..] == "" || rest[n..] == "\n";
  }

  lemma NewlineSuffix(s: string)
    requires EndsWith(s, ".none\n")
    ensures s[|s| - 1] == '\n' && !EndsWith(s, ".none")
  {
    assert s[|s| - 6..][5] == s[|s| - 1];
    assert s[|s| - 5..][4] == s[|s| - 1];
  }

  /**
   * Every capability the parser accepts can be printed and parsed again, except those read from a text that ends in
   * ".none" followed by a newline.
   */
  lemma AcceptedIsPrintable(s: string)
    requires Parse(s).Some?
    ensures Reads(s, Parse(s).value)
    ensures Printable(Parse(s).value.scope) <==> !EndsWith(s, ".none\n")
  {
    ParseIsReads(s, Parse(s).value);
    if EndsWith(s, ".none") {
      if EndsWith(s, ".none\n") {
        NewlineSuffix(s);
      }
    } else {
      var head := ScopedShape(s);
      var scope := ParseScoped(s).value.scope;
      SuffixInScope(head, scope, ".none");
      if s == head + ":" + scope {
        assert s[|s| - 1] == scope[|scope| - 1] && scope[|scope| - 1] in scope;
        if EndsWith(s, ".none\n") {
          NewlineSuffix(s);
        }
      } else {
        SuffixThenNewline(head + ":" + scope);
      }
    }
  }

  lemma SuffixThenNewline(u: string)
    ensures EndsWith(u + "\n", ".none\n") <==> EndsWith(u, ".none")
  {
    if |u| >= 5 {
      assert (u + "\n")[|u| + 1 - 6..] == u[|u| - 5..] + "\n";
      assert ".none\n" == ".none" + "\n";
      assert (".none\n")[..5] == ".none" && (u[|u| - 5..] + "\n")[..5] == u[|u| - 5..];
    }
  }

  // ---------------------------------------------------------------------------------------------
  // Evaluation
  // ---------------------------------------------------------------------------------------------

  /** `Capability.matches`. */
  predicate Grants(c: Capability, r: Resource, a: Action, target: string) {
    if c.resource != r then false
    else if c.action == Nothing then false
    else if c.action != a then false
    else if c.scope == "*" then true
    else if Glob.SplitMatches(c.scope, target) then true
    else target == c.scope
  }

  /** The test `permits` makes for one deny rule. */
  predicate Forbids(c: Capability, r: Resource, a: Action, target: string) {
    c.resource == r && c.action == a && Glob.SplitMatches(c.scope, target)
  }

  predicate AnyForbids(deny: seq<Capability>, r: Resource, a: Action, target: string) {
    deny != [] && (Forbids(deny[0], r, a, target) || AnyForbids(deny[1..], r, a, target))
  }

  predicate AnyGrants(allow: seq<Capability>, r: Resource, a: Action, target: string) {
    allow != [] && (Grants(allow[0], r, a, target) || AnyGrants(allow[1..], r, a, target))
  }

  /** `CapabilitySet.permits`: deny rules first, then allow rules, otherwise no. */
  predicate Permits(cs: CapabilitySet, r: Resource, a: Action, target: string) {
    if AnyForbids(cs.deny, r, a, target) then false
    else AnyGrants(cs.allow, r, a, target)
  }

  /** What a rule covers, under the character-by-character meaning of its scope. */
  ghost predicate Covers(c: Capability, r: Resource, a: Action, target: string) {
    c.resource == r && c.action == a && Glob.Matches(c.scope, target)
  }

  /** The declarative meaning: a request for a real action that some allow rule covers and no deny rule covers. */
  ghost predicate Allowed(cs: CapabilitySet, r: Resource, a: Action, target: string) {
    && a != Nothing
    && (exists c :: c in cs.allow && Covers(c, r, a, target))
    && (forall c :: c in cs.deny ==> !Covers(c, r, a, target))
  }

  lemma GrantsIsCovers(c: Capability, r: Resource, a: Action, target: string)
    ensures Grants(c, r, a, target) <==> a != Nothing && Covers(c, r, a, target)
  {
    Glob.SplitMatchesIsMatches(c.scope, target);
    Glob.MatchesEverything(target);
    Glob.MatchesItself(target);
  }

  lemma {:induction false} AnyGrantsIsExists(allow: seq<Capability>, r: Resource, a: Action, target: string)
    ensures AnyGrants(allow, r, a, target) <==> a != Nothing && exists c :: c in allow && Covers(c, r, a, target)
  {
    if allow != [] {
      GrantsIsCovers(allow[0], r, a, target);
      AnyGrantsIsExists(allow[1..], r, a, target);
      assert forall c :: c in allow <==> c == allow[0] || c in allow[1..];
    }
  }

  lemma {:induction false} AnyForbidsIsExists(deny: seq<Capability>, r: Resource, a: Action, target: string)
    ensures AnyForbids(deny, r, a, target) <==> exists c :: c in deny && Covers(c, r, a, target)
  {
    if deny != [] {
      Glob.SplitMatchesIsMatches(deny[0].scope, target);
      assert Forbids(deny[0], r, a, target) <==> Covers(deny[0], r, a, target);
      AnyForbidsIsExists(deny[1..], r, a, target);
      assert forall c :: c in deny <==> c == deny[0] || c in deny[1..];
    }
  }

  lemma PermitsIsAllowed(cs: CapabilitySet, r: Resource, a: Action, target: string)
    ensures Permits(cs, r, a, target) <==> Allowed(cs, r, a, target)
  {
    AnyGrantsIsExists(cs.allow, r, a, target);
    AnyForbidsIsExists(cs.deny, r, a, target);
  }

  /**
   * More allow rules and fewer deny rules never take a permission away. Order, duplicates and "none" rules among the
   * allows do not matter: only which effective rules occur.
   */
  lemma PermitsMonotone(x: CapabilitySet, y: CapabilitySet, r: Resource, a: Action, target: string)
    requires forall c :: c in x.allow && c.action != Nothing ==> c in y.allow
    requires forall c :: c in y.deny ==> c in x.deny
    ensures Permits(x, r, a, target) ==> Permits(y, r, a, target)
  {
    PermitsIsAllowed(x, r, a, target);
    PermitsIsAllowed(y, r, a, target);
    if Permits(x, r, a, target) {
      var c :| c in x.allow && Covers(c, r, a, target);
      assert c in y.allow;
    }
  }

  // ---------------------------------------------------------------------------------------------
  // Lists of rules
  // ---------------------------------------------------------------------------------------------

  predicate IsDeny(s: string) {
    s != "" && s[0] == '!'
  }

  function Body(s: string): string {
    if IsDeny(s) then s[1..] else s
  }

  /** `CapabilitySet.from_strings`; one bad string spoils the list. */
  function FromStrings(caps: seq<string>): Option<CapabilitySet> {
    if caps == [] then Some(CapabilitySet([], []))
    else
      var first := Parse(Body(caps[0]));
      var rest := FromStrings(caps[1..]);
      if first.None? || rest.None? then None
      else if IsDeny(caps[0]) then Some(CapabilitySet(rest.value.allow, [first.value] + rest.value.deny))
      else Some(CapabilitySet([first.value] + rest.value.allow, rest.value.deny))
  }

  function PrintAllows(allow: seq<Capability>): seq<string> {
    if allow == [] then [] else [Print(allow[0])] + PrintAllows(allow[1..])
  }

  function PrintDenies(deny: seq<Capability>): seq<string> {
    if deny == [] then [] else ["!" + Print(deny[0])] + PrintDenies(deny[1..])
  }

  /** What `_save_agent` writes. */
  function Saved(cs: CapabilitySet): seq<string> {
    PrintAllows(cs.allow) + PrintDenies(cs.deny)
  }

  ghost predicate AllPrintable(cs: seq<Capability>) {
    forall c :: c in cs ==> Printable(c.scope)
  }

  lemma AllPrintableCons(cs: seq<Capability>)
    requires cs != []
    ensures AllPrintable(cs) <==> Printable(cs[0].scope) && AllPrintable(cs[1..])
  {
    assert forall c :: c in cs <==> c == cs[0] || c in cs[1..];
  }

  lemma Reassociate(first: string, a: seq<string>, b: seq<string>)
    ensures [first] + a + b == [first] + (a + b)
  {
  }

  lemma PrintIsNoDeny(c: Capability)
    ensures !IsDeny(Print(c)) && Body(Print(c)) == Print(c)
    ensures IsDeny("!" + Print(c)) && Body("!" + Print(c)) == Print(c)
  {
    assert Print(c)[0] == ResourceName(c.resource)[0];
  }

  lemma FromStringsAllow(c: Capability, rest: seq<string>, cs: CapabilitySet)
    ensures FromStrings([Print(c)] + rest) == Some(CapabilitySet([c] + cs.allow, cs.deny))
            <==> Printable(c.scope) && FromStrings(rest) == Some(cs)
  {
    PrintIsNoDeny(c);
    PrintParseRoundTrip(c);
    assert ([Print(c)] + rest)[1..] == rest;
    FirstOfCons(FromStrings(rest), Parse(Print(c)), c, cs.allow);
  }

  lemma FromStringsDeny(c: Capability, rest: seq<string>, cs: CapabilitySet)
    ensures FromStrings(["!" + Print(c)] + rest) == Some(CapabilitySet(cs.allow, [c] + cs.deny))
            <==> Printable(c.scope) && FromStrings(rest) == Some(cs)
  {
    PrintIsNoDeny(c);
    PrintParseRoundTrip(c);
    assert (["!" + Print(c)] + rest)[1..] == rest;
    FirstOfCons(FromStrings(rest), Parse(Print(c)), c, cs.deny);
  }

  lemma FirstOfCons(rest: Option<CapabilitySet>, first: Option<Capability>, c: Capability, tail: seq<Capability>)
    ensures first.Some? && rest.Some? ==>
              ([first.value] + rest.value.allow == [c] + tail <==> first == Some(c) && rest.value.allow == tail)
    ensures first.Some? && rest.Some? ==>
              ([first.value] + rest.value.deny == [c] + tail <==> first == Some(c) && rest.value.deny == tail)
  {
    if first.Some? && rest.Some? {
      assert ([first.value] + rest.value.allow)[1..] == rest.value.allow;
      assert ([first.value] + rest.value.deny)[1..] == rest.value.deny;
      assert ([c] + tail)[1..] == tail;
    }
  }

  lemma {:induction false} DeniesRoundTrip(deny: seq<Capability>)
    ensures FromStrings(PrintDenies(deny)) == Some(CapabilitySet([], deny)) <==> AllPrintable(deny)
  {
    if deny != [] {
      DeniesRoundTrip(deny[1..]);
      FromStringsDeny(deny[0], PrintDenies(deny[1..]), CapabilitySet([], deny[1..]));
      assert deny == [deny[0]] + deny[1..];
      AllPrintableCons(deny);
    }
  }

  lemma {:induction false} SavedRoundTripUpTo(allow: seq<Capability>, deny: seq<Capability>)
    ensures FromStrings(PrintAllows(allow) + PrintDenies(deny)) == Some(CapabilitySet(allow, deny))
            <==> AllPrintable(allow) && AllPrintable(deny)
  {
    if allow == [] {
      assert PrintAllows(allow) + PrintDenies(deny) == PrintDenies(deny);
      DeniesRoundTrip(deny);
    } else {
      var rest := PrintAllows(allow[1..]) + PrintDenies(deny);
      SavedRoundTripUpTo(allow[1..], deny);
      FromStringsAllow(allow[0], rest, CapabilitySet(allow[1..], deny));
      assert PrintAllows(allow) + PrintDenies(deny) == [Print(allow[0])] + rest by {
        Reassociate(Print(allow[0]), PrintAllows(allow[1..]), PrintDenies(deny));
      }
      assert allow == [allow[0]] + allow[1..];
      AllPrintableCons(allow);
    }
  }

  /** A saved set reads back as itself exactly when every scope in it is printable. */
  lemma SavedRoundTrip(cs: CapabilitySet)
    ensures FromStrings(Saved(cs)) == Some(cs) <==> AllPrintable(cs.allow) && AllPrintable(cs.deny)
  {
    SavedRoundTripUpTo(cs.allow, cs.deny);
  }

  /** Which rules a parsed list holds. */
  lemma {:induction false} FromStringsMembers(caps: seq<string>, c: Capability)
    requires FromStrings(caps).Some?
    ensures c in FromStrings(caps).value.allow <==> exists s :: s in caps && !IsDeny(s) && Parse(Body(s)) == Some(c)
    ensures c in FromStrings(caps).value.deny <==> exists s :: s in caps && IsDeny(s) && Parse(Body(s)) == Some(c)
  {
    if caps != [] {
      FromStringsMembers(caps[1..], c);
      assert forall s :: s in caps <==> s == caps[0] || s in caps[1..];
    }
  }

  lemma {:induction false} FromStringsParses(caps: seq<string>)
    ensures FromStrings(caps).Some? <==> forall s :: s in caps ==> Parse(Body(s)).Some?
  {
    if caps != [] {
      FromStringsParses(caps[1..]);
      assert forall s :: s in caps <==> s == caps[0] || s in caps[1..];
    }
  }

  /** A registered list survives saving and reloading exactly when none of its strings ends in ".none" and a newline. */
  lemma RegisteredListReloads(caps: seq<string>)
    requires FromStrings(caps).Some?
    ensures var cs := FromStrings(caps).value;
            FromStrings(Saved(cs)) == Some(cs) <==> forall s :: s in caps ==> !EndsWith(Body(s), ".none\n")
  {
    var cs := FromStrings(caps).value;
    SavedRoundTrip(cs);
    FromStringsParses(caps);
    forall s | s in caps
      ensures Printable(Parse(Body(s)).value.scope) <==> !EndsWith(Body(s), ".none\n")
      ensures Parse(Body(s)).value in cs.allow || Parse(Body(s)).value in cs.deny
    {
      AcceptedIsPrintable(Body(s));
      FromStringsMembers(caps, Parse(Body(s)).value);
    }
    forall c | c in cs.allow || c in cs.deny
      ensures exists s :: s in caps && Parse(Body(s)) == Some(c)
    {
      FromStringsMembers(caps, c);
    }
  }

  // ---------------------------------------------------------------------------------------------
  // What the texts mean
  // ---------------------------------------------------------------------------------------------

  /** `s` is resource, ".", action, ":" and a scope of one line, with at most one newline after it. */
  predicate IsText(s: string, r: Resource, a: Action, scope: string) {
    && scope != ""
    && '\n' !in scope
    && (s == ResourceName(r) + "." + ActionName(a) + ":" + scope || s == ResourceName(r) + "." + ActionName(a) + ":" + scope + "\n")
  }

  /** What the parser accepts, and as what. */
  ghost predicate Reads(s: string, c: Capability) {
    if EndsWith(s, ".none") then c.action == Nothing && c.scope == "*" && WithoutNone(s) == ResourceName(c.resource)
    else IsText(s, c.resource, c.action, c.scope)
  }

  ghost predicate Readable(s: string) {
    exists c :: Reads(s, c)
  }

  lemma ResourceOfIsName(s: string, r: Resource)
    ensures ResourceOf(s) == Some(r) <==> s == ResourceName(r)
  {
  }

  lemma ActionOfIsName(s: string, a: Action)
    ensures ActionOf(s) == Some(a) <==> s == ActionName(a)
  {
  }

  lemma LastLineIs(rest: string, scope: string)
    requires scope != "" && '\n' !in scope && (rest == scope || rest == scope + "\n")
    ensures LastLine(rest) == Some(scope)
  {
    var n := LineLength(rest);
    assert rest == scope || rest[|scope|] == '\n';
    assert rest[..n] == scope;
  }

  lemma TextIsScoped(s: string, r: Resource, a: Action, scope: string)
    requires IsText(s, r, a, scope)
    ensures ParseScoped(s) == Some(Capability(r, a, scope))
  {
    var head := ResourceName(r) + "." + ActionName(a) + ":";
    var rest := if s == head + scope then scope else scope + "\n";
    NewlineLast(head, scope);
    LastLineIs(rest, scope);
    ScopedRoundTrip(Capability(r, a, rest));
  }

  lemma ScopedParts(s: string) returns (rest: string)
    requires ParseScoped(s).Some?
    ensures var c := ParseScoped(s).value;
            && s == ResourceName(c.resource) + "." + ActionName(c.action) + ":" + rest
            && LastLine(rest) == Some(c.scope)
  {
    var c := ParseScoped(s).value;
    var i := WordLength(s);
    var t := s[i + 1..];
    var j := WordLength(t);
    rest := t[j + 1..];
    ResourceOfIsName(s[..i], c.resource);
    ActionOfIsName(t[..j], c.action);
    CutAt(s, i);
    CutAt(t, j);
    Regroup(s[..i], t[..j], rest);
  }

  lemma ScopedIsText(s: string)
    requires ParseScoped(s).Some?
    ensures var c := ParseScoped(s).value; IsText(s, c.resource, c.action, c.scope)
  {
    var c := ParseScoped(s).value;
    var rest := ScopedParts(s);
    LastLineShape(rest);
    NewlineLast(ResourceName(c.resource) + "." + ActionName(c.action) + ":", c.scope);
  }

  lemma NewlineLast(head: string, scope: string)
    ensures head + (scope + "\n") == head + scope + "\n"
  {
  }

  /** The parser reads exactly these texts, each as one capability. */
  lemma ParseIsReads(s: string, c: Capability)
    ensures Parse(s) == Some(c) <==> Reads(s, c)
  {
    if EndsWith(s, ".none") {
      ResourceOfIsName(WithoutNone(s), c.resource);
    } else {
      if ParseScoped(s).Some? {
        ScopedIsText(s);
      }
      if IsText(s, c.resource, c.action, c.scope) {
        TextIsScoped(s, c.resource, c.action, c.scope);
      }
    }
  }

  predicate NoneAt(s: string, i: nat) {
    i + 5 <= |s| && s[i..i + 5] == ".none"
  }

  lemma NoneAtTail(s: string, i: nat)
    requires s != ""
    ensures NoneAt(s[1..], i) <==> NoneAt(s, i + 1)
  {
    if i + 6 <= |s| {
      assert s[1..][i..i + 5] == s[i + 1..i + 6];
    }
  }

  /** The first ".none" goes, and then the rest is treated alike. */
  lemma {:induction false} FirstNoneGoes(s: string, k: nat)
    requires NoneAt(s, k) && forall i: nat :: i < k ==> !NoneAt(s, i)
    ensures WithoutNone(s) == s[..k] + WithoutNone(s[k + 5..])
  {
    if k > 0 {
      var t := s[1..];
      assert !NoneAt(s, 0) && s[0..5] == s[..5];
      forall i: nat | i < k
        ensures NoneAt(t, i) <==> NoneAt(s, i + 1)
      {
        NoneAtTail(s, i);
      }
      FirstNoneGoes(t, k - 1);
      OneFurther(s, k);
      assert WithoutNone(s) == [s[0]] + WithoutNone(t);
    }
  }

  lemma OneFurther(s: string, k: nat)
    requires 0 < k && k + 5 <= |s|
    ensures s[1..][k + 4..] == s[k + 5..] && [s[0]] + s[1..][..k - 1] == s[..k]
  {
  }

  lemma {:induction false} NoneIsCut(w: string)
    requires '.' !in w
    ensures WithoutNone(w + ".none") == w
  {
    if w == "" {
      assert w + ".none" == ".none";
      assert ".none"[..5] == ".none" && ".none"[5..] == "";
    } else {
      var s := w + ".none";
      assert s[0] == w[0] && s[..5][0] == w[0] && w[0] in w;
      assert s[1..] == w[1..] + ".none";
      NoneIsCut(w[1..]);
    }
  }

  /** "resource.none" is the rule that grants nothing on the resource. */
  lemma NoneIsNothing(r: Resource)
    ensures Parse(ResourceName(r) + ".none") == Some(Capability(r, Nothing, "*"))
  {
    var s := ResourceName(r) + ".none";
    assert '.' !in ResourceName(r);
    NoneIsCut(ResourceName(r));
    assert s[|s| - 5..] == ".none";
    ResourceOfIsName(WithoutNone(s), r);
  }

  /** The access lies in the scope that the text grants or denies. */
  ghost predicate TextCovers(s: string, r: Resource, a: Action, target: string) {
    && !EndsWith(s, ".none")
    && exists scope :: IsText(s, r, a, scope) && Glob.Matches(scope, target)
  }

  /** What a list of texts permits: a real action that some text covers, unless "!" and a text that covers it occurs. */
  ghost predicate TextsPermit(caps: seq<string>, r: Resource, a: Action, target: string) {
    && a != Nothing
    && (exists s :: s in caps && TextCovers(s, r, a, target))
    && !(exists s {:trigger TextCovers(s, r, a, target)} :: "!" + s in caps && TextCovers(s, r, a, target))
  }

  lemma CoversIsText(s: string, r: Resource, a: Action, target: string)
    requires a != Nothing
    ensures TextCovers(s, r, a, target) <==> Parse(s).Some? && Covers(Parse(s).value, r, a, target)
  {
    if Parse(s).Some? && Covers(Parse(s).value, r, a, target) {
      ReadIsText(s, Parse(s).value);
    }
    if TextCovers(s, r, a, target) {
      var scope :| IsText(s, r, a, scope) && Glob.Matches(scope, target);
      ParseIsReads(s, Capability(r, a, scope));
    }
  }

  lemma ReadIsText(s: string, c: Capability)
    requires Parse(s) == Some(c) && c.action != Nothing
    ensures !EndsWith(s, ".none") && IsText(s, c.resource, c.action, c.scope)
  {
    ParseIsReads(s, c);
  }

  lemma TextIsNoDeny(s: string, r: Resource, a: Action, target: string)
    requires TextCovers(s, r, a, target)
    ensures !IsDeny(s)
  {
    var scope :| IsText(s, r, a, scope);
    assert s[0] == ResourceName(r)[0];
  }

  lemma SomeAllowCovers(caps: seq<string>, r: Resource, a: Action, target: string)
    requires FromStrings(caps).Some? && a != Nothing
    ensures (exists s :: s in caps && TextCovers(s, r, a, target)) <==>
              exists c :: c in FromStrings(caps).value.allow && Covers(c, r, a, target)
  {
    if s :| s in caps && TextCovers(s, r, a, target) {
      TextIsNoDeny(s, r, a, target);
      CoversIsText(s, r, a, target);
      FromStringsMembers(caps, Parse(s).value);
    }
    if c :| c in FromStrings(caps).value.allow && Covers(c, r, a, target) {
      FromStringsMembers(caps, c);
      var s :| s in caps && !IsDeny(s) && Parse(Body(s)) == Some(c);
      CoversIsText(s, r, a, target);
    }
  }

  lemma DenyIsBang(s: string, u: string)
    ensures "!" + u == s <==> IsDeny(s) && Body(s) == u
  {
    if IsDeny(s) {
      assert s == "!" + s[1..];
    }
  }

  lemma SomeDenyCovers(caps: seq<string>, r: Resource, a: Action, target: string)
    requires FromStrings(caps).Some? && a != Nothing
    ensures (exists s {:trigger TextCovers(s, r, a, target)} :: "!" + s in caps && TextCovers(s, r, a, target)) <==>
              exists c :: c in FromStrings(caps).value.deny && Covers(c, r, a, target)
  {
    if s {:trigger TextCovers(s, r, a, target)} :| "!" + s in caps && TextCovers(s, r, a, target) {
      DenyIsBang("!" + s, s);
      CoversIsText(s, r, a, target);
      FromStringsMembers(caps, Parse(s).value);
    }
    if c :| c in FromStrings(caps).value.deny && Covers(c, r, a, target) {
      FromStringsMembers(caps, c);
      var s :| s in caps && IsDeny(s) && Parse(Body(s)) == Some(c);
      DenyIsBang(s, Body(s));
      CoversIsText(Body(s), r, a, target);
    }
  }

  /** The decision law on the texts of a list that parses. */
  lemma PermitsIsTexts(caps: seq<string>, r: Resource, a: Action, target: string)
    requires FromStrings(caps).Some?
    ensures Permits(FromStrings(caps).value, r, a, target) <==> TextsPermit(caps, r, a, target)
  {
    PermitsIsAllowed(FromStrings(caps).value, r, a, target);
    if a != Nothing {
      SomeAllowCovers(caps, r, a, target);
      SomeDenyCovers(caps, r, a, target);
    }
  }

  /** A list parses exactly if every text in it, without its "!", is one the parser reads. */
  lemma ListParsesIff(caps: seq<string>)
    ensures FromStrings(caps).Some? <==>
              forall s :: s in caps ==> Readable(if s != "" && s[0] == '!' then s[1..] else s)
  {
    FromStringsParses(caps);
    forall s | s in caps
      ensures Parse(Body(s)).Some? <==> Readable(Body(s))
    {
      if Parse(Body(s)).Some? {
        ParseIsReads(Body(s), Parse(Body(s)).value);
      }
      if c :| Reads(Body(s), c) {
        ParseIsReads(Body(s), c);
      }
    }
  }

  /** Texts that end in ".none", negated or not, change no decision. */
  lemma NoneChangesNothing(x: seq<string>, y: seq<string>, r: Resource, a: Action, target: string)
    requires FromStrings(x).Some? && FromStrings(y).Some?
    requires forall s :: !EndsWith(s, ".none") ==> (s in x <==> s in y)
    ensures Permits(FromStrings(x).value, r, a, target) <==> Permits(FromStrings(y).value, r, a, target)
  {
    PermitsIsTexts(x, r, a, target);
    PermitsIsTexts(y, r, a, target);
    forall s | TextCovers(s, r, a, target)
      ensures ("!" + s in x <==> "!" + s in y) && (s in x <==> s in y)
    {
      BangKeepsSuffix(s);
    }
  }

  lemma BangKeepsSuffix(s: string)
    requires !EndsWith(s, ".none")
    ensures !EndsWith("!" + s, ".none")
  {
    var t := "!" + s;
    if |s| >= 5 {
      assert t[|t| - 5..] == s[|s| - 5..];
    } else {
      assert t[0] == '!' && ".none"[0] == '.';
    }
  }
}
