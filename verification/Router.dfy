/** The route table: exact routes by path, dynamic routes in registration order, and the choice of a
    handler or of the error to report. */
module Router {
  import opened Wrappers
  import opened RoutePattern

  datatype Verb = Invalid | Get | Post | Head | Put | Delete | Options

  /** handler stands for the callback. */
  datatype Route = Route(verb: Verb, pattern: string, expression: string, names: seq<string>, handler: nat,
                         isAsync: bool)

  datatype Outcome = Handled | AsyncPending | NotFound | MethodNotAllowed

  // ---------- what routing means ----------

  predicate Dynamic(p: string) { Names(Tokens(p, 0)) != [] }

  /** The routes of a table whose pattern is this path, literally. */
  function ExactFor(rs: seq<Route>, path: string): seq<Route> {
    if rs == [] then []
    else
      var r := rs[|rs| - 1];
      ExactFor(rs[..|rs| - 1], path) + if !Dynamic(r.pattern) && r.pattern == path then [r] else []
  }

  function Dynamics(rs: seq<Route>): seq<Route> {
    if rs == [] then []
    else Dynamics(rs[..|rs| - 1]) + if Dynamic(rs[|rs| - 1].pattern) then [rs[|rs| - 1]] else []
  }

  /** The dynamic routes whose pattern matches the path. */
  function MatchingFor(rs: seq<Route>, path: string): seq<Route> {
    if rs == [] then []
    else
      var r := rs[|rs| - 1];
      MatchingFor(rs[..|rs| - 1], path) + if Dynamic(r.pattern) && MatchPath(r.pattern, path).Some? then [r] else []
  }

  /** The routes that count for a path: exact ones shadow dynamic ones. */
  function Candidates(rs: seq<Route>, path: string): seq<Route> {
    if ExactFor(rs, path) != [] then ExactFor(rs, path) else MatchingFor(rs, path)
  }

  predicate NoneFor(rs: seq<Route>, verb: Verb) { forall i :: 0 <= i < |rs| ==> rs[i].verb != verb }

  /** r is the first route of rs for the verb. */
  predicate FirstFor(rs: seq<Route>, verb: Verb, r: Route) {
    exists i :: 0 <= i < |rs| && rs[i] == r && r.verb == verb && NoneFor(rs[..i], verb)
  }

  function AddAllowed(vs: seq<Verb>, v: Verb): seq<Verb> { if v in vs then vs else vs + [v] }

  /** The verbs of some routes, each once, in order of first appearance. */
  function Verbs(rs: seq<Route>): seq<Verb> {
    if rs == [] then [] else AddAllowed(Verbs(rs[..|rs| - 1]), rs[|rs| - 1].verb)
  }

  lemma {:induction false} VerbsExact(rs: seq<Route>)
    ensures forall v :: v in Verbs(rs) <==> exists i :: 0 <= i < |rs| && rs[i].verb == v
    ensures forall i, j :: 0 <= i < j < |Verbs(rs)| ==> Verbs(rs)[i] != Verbs(rs)[j]
    ensures Verbs(rs) == [] <==> rs == []
  {
    if rs != [] {
      var n := |rs| - 1;
      VerbsExact(rs[..n]);
      forall v
        ensures v in Verbs(rs) <==> exists i :: 0 <= i < |rs| && rs[i].verb == v
      {
        if exists i :: 0 <= i < |rs| && rs[i].verb == v {
          var i :| 0 <= i < |rs| && rs[i].verb == v;
          if i < n { assert rs[..n][i].verb == v; }
        }
        if v in Verbs(rs[..n]) {
          var i :| 0 <= i < n && rs[..n][i].verb == v;
          assert rs[i].verb == v;
        }
      }
    }
  }

  /** Path parameters by name; a repeated name keeps its last value. */
  function Bound(names: seq<string>, values: seq<string>): map<string, string>
    requires |names| == |values|
  {
    if names == [] then map[]
    else Bound(names[..|names| - 1], values[..|names| - 1])[names[|names| - 1] := values[|names| - 1]]
  }

  lemma {:induction false} BoundIsLast(names: seq<string>, values: seq<string>, i: nat)
    requires |names| == |values| && i < |names|
    ensures names[i] in Bound(names, values)
    ensures (forall j :: i < j < |names| ==> names[j] != names[i]) ==> Bound(names, values)[names[i]] == values[i]
  {
    var n := |names| - 1;
    if i < n {
      BoundIsLast(names[..n], values[..n], i);
      assert (forall j :: i < j < |names| ==> names[j] != names[i]) ==>
             forall j :: i < j < n ==> names[..n][j] != names[..n][i];
    }
  }

  /** Distinct verbs and patterns: a path has at most one exact route per verb. */
  predicate Unique(rs: seq<Route>) {
    forall i, j :: 0 <= i < j < |rs| ==> (rs[i].verb, rs[i].pattern) != (rs[j].verb, rs[j].pattern)
  }

  // ---------- the table ----------

  predicate Compiles(r: Route) { r.expression == Compiled(r.pattern) && r.names == Names(Tokens(r.pattern, 0)) }

  predicate AllCompile(rs: seq<Route>) { forall i :: 0 <= i < |rs| ==> Compiles(rs[i]) }

  /** The exact table holds the exact routes of every path that has some. */
  ghost predicate ExactHolds(exact: map<string, seq<Route>>, rs: seq<Route>) {
    && (forall p :: p in exact ==> exact[p] == ExactFor(rs, p) && exact[p] != [])
    && (forall p :: p !in exact ==> ExactFor(rs, p) == [])
  }

  predicate Registers(rs: seq<Route>, key: (Verb, string)) {
    exists i :: 0 <= i < |rs| && (rs[i].verb, rs[i].pattern) == key
  }

  ghost predicate KeysHold(keys: set<(Verb, string)>, rs: seq<Route>) { forall k :: k in keys <==> Registers(rs, k) }

  /** regex_match with a stored expression. */
  function MatchExpression(expression: string, path: string): Option<seq<string>> {
    match ReadRegex(expression) case None => None case Some(atoms) => Match(atoms, path)
  }

  /** The first i dynamic routes gave no handler, and these verbs. */
  predicate Scanned(rs: seq<Route>, i: nat, path: string, verb: Verb, allowed: seq<Verb>) {
    i <= |rs| && NoneFor(MatchingFor(rs[..i], path), verb) && allowed == Verbs(MatchingFor(rs[..i], path))
  }

  class RouteTable {
    var exactRoutes: map<string, seq<Route>>
    var dynamicRoutes: seq<Route>
    var registeredPatterns: set<(Verb, string)>
    ghost var routes: seq<Route>

    ghost predicate Valid()
      reads this
    {
      && dynamicRoutes == Dynamics(routes) && ExactHolds(exactRoutes, routes)
      && KeysHold(registeredPatterns, routes) && AllCompile(routes) && Unique(routes)
    }

    constructor ()
      ensures Valid() && routes == []
    {
      exactRoutes, dynamicRoutes, registeredPatterns, routes := map[], [], {}, [];
    }

    /** The table that a dynamic or an exact route goes into. */
    method Store(r: Route, dynamic: bool)
      requires dynamicRoutes == Dynamics(routes) && ExactHolds(exactRoutes, routes) && dynamic == Dynamic(r.pattern)
      modifies `exactRoutes, `dynamicRoutes
      ensures dynamicRoutes == Dynamics(routes + [r]) && ExactHolds(exactRoutes, routes + [r])
    {
      hide Dynamic, ExactHolds, Dynamics;
      AppendRoute(routes, r);
      AppendExact(exactRoutes, routes, r);
      if dynamic {
        dynamicRoutes := dynamicRoutes + [r];
      } else {
        var others := if r.pattern in exactRoutes then exactRoutes[r.pattern] else [];
        exactRoutes := exactRoutes[r.pattern := others + [r]];
      }
    }

    method Register(r: Route, dynamic: bool)
      requires Valid() && Compiles(r) && !Registers(routes, (r.verb, r.pattern)) && dynamic == Dynamic(r.pattern)
      modifies this
      ensures Valid() && routes == old(routes) + [r]
    {
      hide ExactHolds, AllCompile, Unique, Dynamics, KeysHold, Registers, Compiles, Dynamic;
      AppendKey(registeredPatterns, routes, r);
      AppendCompiles(routes, r);
      AppendUnique(routes, r);
      registeredPatterns := registeredPatterns + {(r.verb, r.pattern)};
      Store(r, dynamic);
      routes := routes + [r];
    }

    /** A verb and pattern can be registered once; routes keep their order of registration. */
    method AddRoute(verb: Verb, pattern: string, handler: nat, isAsync: bool) returns (added: bool)
      requires Valid()
      modifies this
      ensures Valid()
      ensures added <==> !Registers(old(routes), (verb, pattern))
      ensures var r := Route(verb, pattern, Compiled(pattern), Names(Tokens(pattern, 0)), handler, isAsync);
              routes == if added then old(routes) + [r] else old(routes)
    {
      assert (verb, pattern) in registeredPatterns <==> Registers(routes, (verb, pattern));
      hide Tokens, Names, Compiled, ExactHolds, AllCompile, Unique, Dynamics, KeysHold, Registers;
      if (verb, pattern) in registeredPatterns {
        return false;
      }
      var text, names := CompileDynamicPattern(pattern);
      var dynamic := IsDynamicPattern(pattern);
      Register(Route(verb, pattern, text, names, handler, isAsync), dynamic);
      return true;
    }

    /** Choosing for an exact path. */
    method RouteExact(verb: Verb, path: string) returns (found: Option<Route>, allowed: seq<Verb>)
      requires Valid() && path in exactRoutes
      ensures var rs := ExactFor(routes, path);
              if found.Some? then FirstFor(rs, verb, found.value) else NoneFor(rs, verb) && allowed == Verbs(rs)
    {
      hide Dynamics, ExactFor, Unique, AllCompile, KeysHold;
      var rs := exactRoutes[path];
      allowed := [];
      var i := 0;
      while i < |rs|
        invariant 0 <= i <= |rs| && NoneFor(rs[..i], verb) && allowed == Verbs(rs[..i])
      {
        if rs[i].verb == verb {
          return Some(rs[i]), allowed;
        }
        assert rs[..i + 1][..i] == rs[..i];
        allowed := AddAllowed(allowed, rs[i].verb);
        i := i + 1;
      }
      assert rs[..i] == rs;
      found := None;
    }

    /** Choosing among the dynamic routes, in order of registration. */
    method RouteDynamic(verb: Verb, path: string)
      returns (found: Option<Route>, captures: seq<string>, allowed: seq<Verb>)
      requires Valid()
      ensures var rs := MatchingFor(routes, path);
              if found.Some? then
                FirstFor(rs, verb, found.value) && MatchPath(found.value.pattern, path) == Some(captures)
              else NoneFor(rs, verb) && allowed == Verbs(rs)
    {
      hide Dynamics, ExactFor, Unique, AllCompile, Compiled, ReadRegex, Match, Tokens, Names;
      hide MatchingFor, ExactHolds, KeysHold, NoneFor, Verbs;
      DynamicsMatch(routes, path);
      DynamicsCompile(routes);
      var rs := dynamicRoutes;
      captures, allowed := [], [];
      NothingScanned(rs, path, verb);
      var i := 0;
      while i < |rs|
        invariant 0 <= i <= |rs| && Scanned(rs, i, path, verb, allowed)
      {
        hide Scanned;
        var m := MatchExpression(rs[i].expression, path);
        CompiledMatch(rs, i, path);
        if m.Some? && rs[i].verb == verb {
          FirstAmong(rs, i, path, verb, allowed);
          return Some(rs[i]), m.value, allowed;
        }
        ScannedNext(rs, i, path, verb, allowed);
        if m.Some? {
          allowed := AddAllowed(allowed, rs[i].verb);
        }
        i := i + 1;
      }
      assert rs[..i] == rs;
      found := None;
    }

    /** The whole decision. Handled requests get the first candidate for their verb with its path
        parameters; otherwise the verbs of all candidates are reported, each once. */
    method RouteRequest(verb: Verb, path: string)
      returns (outcome: Outcome, chosen: Option<Route>, parameters: map<string, string>, allowed: seq<Verb>)
      requires Valid()
      ensures var rs := Candidates(routes, path);
              && (chosen.Some? ==>
                    && FirstFor(rs, verb, chosen.value)
                    && outcome == if chosen.value.isAsync then AsyncPending else Handled)
              && (chosen.None? ==>
                    && NoneFor(rs, verb) && allowed == Verbs(rs)
                    && outcome == if rs == [] then NotFound else MethodNotAllowed)
      ensures chosen.Some? && Dynamic(chosen.value.pattern) ==>
                var values := MatchPath(chosen.value.pattern, path);
                && values.Some? && |values.value| == |Names(Tokens(chosen.value.pattern, 0))|
                && parameters == Bound(Names(Tokens(chosen.value.pattern, 0)), values.value)
    {
      parameters := map[];
      if path in exactRoutes {
        chosen, allowed := RouteExact(verb, path);
        outcome := if chosen.None? then MethodNotAllowed else if chosen.value.isAsync then AsyncPending else Handled;
        if chosen.Some? { ExactIsNotDynamic(routes, path, verb, chosen.value); }
        return;
      }
      var captures;
      chosen, captures, allowed := RouteDynamic(verb, path);
      if chosen.Some? {
        MatchingMembers(routes, path, verb, chosen.value);
        MatchesExactly(chosen.value.pattern, path, captures);
        assert |captures| == |Names(Tokens(chosen.value.pattern, 0))|;
        parameters := InjectParameters(chosen.value.names, captures);
        outcome := if chosen.value.isAsync then AsyncPending else Handled;
      } else {
        VerbsExact(MatchingFor(routes, path));
        outcome := if allowed == [] then NotFound else MethodNotAllowed;
      }
    }
  }

  method InjectParameters(names: seq<string>, values: seq<string>) returns (parameters: map<string, string>)
    requires |names| == |values|
    ensures parameters == Bound(names, values)
  {
    parameters := map[];
    var i := 0;
    while i < |names|
      invariant 0 <= i <= |names| && parameters == Bound(names[..i], values[..i])
    {
      assert names[..i + 1][..i] == names[..i] && values[..i + 1][..i] == values[..i];
      parameters := parameters[names[i] := values[i]];
      i := i + 1;
    }
    assert names[..i] == names && values[..i] == values;
  }

  // ---------- lemmas ----------

  lemma AppendRoute(rs: seq<Route>, r: Route)
    ensures Dynamics(rs + [r]) == Dynamics(rs) + if Dynamic(r.pattern) then [r] else []
    ensures Dynamics(rs) + [] == Dynamics(rs)
  {
    assert (rs + [r])[..|rs|] == rs;
  }

  lemma ExactSnoc(rs: seq<Route>, r: Route, p: string)
    ensures ExactFor(rs + [r], p) ==
              if !Dynamic(r.pattern) && r.pattern == p then ExactFor(rs, p) + [r] else ExactFor(rs, p)
  {
    hide Dynamic;
    assert (rs + [r])[..|rs|] == rs;
  }

  lemma AppendExact(exact: map<string, seq<Route>>, rs: seq<Route>, r: Route)
    requires ExactHolds(exact, rs)
    ensures Dynamic(r.pattern) ==> ExactHolds(exact, rs + [r])
    ensures !Dynamic(r.pattern) ==>
              ExactHolds(exact[r.pattern := (if r.pattern in exact then exact[r.pattern] else []) + [r]], rs + [r])
  {
    hide Dynamic, ExactFor;
    forall p
      ensures ExactFor(rs + [r], p) ==
              if !Dynamic(r.pattern) && r.pattern == p then ExactFor(rs, p) + [r] else ExactFor(rs, p)
    {
      ExactSnoc(rs, r, p);
    }
  }

  lemma AppendKey(keys: set<(Verb, string)>, rs: seq<Route>, r: Route)
    requires KeysHold(keys, rs)
    ensures KeysHold(keys + {(r.verb, r.pattern)}, rs + [r])
  {
    var more := rs + [r];
    assert more[|rs|] == r;
    forall k
      ensures Registers(more, k) <==> Registers(rs, k) || k == (r.verb, r.pattern)
    {
      if Registers(rs, k) {
        var i :| 0 <= i < |rs| && (rs[i].verb, rs[i].pattern) == k;
        assert more[i] == rs[i];
      }
    }
    hide Registers;
  }

  lemma AppendCompiles(rs: seq<Route>, r: Route)
    requires AllCompile(rs) && Compiles(r)
    ensures AllCompile(rs + [r])
  {
    hide Compiles;
  }

  lemma AppendUnique(rs: seq<Route>, r: Route)
    requires Unique(rs) && !Registers(rs, (r.verb, r.pattern))
    ensures Unique(rs + [r])
  {
  }

  lemma VerbsSnoc(rs: seq<Route>, r: Route)
    ensures Verbs(rs + [r]) == AddAllowed(Verbs(rs), r.verb)
  {
    assert (rs + [r])[..|rs|] == rs;
  }

  lemma NoneSnoc(rs: seq<Route>, r: Route, verb: Verb)
    requires NoneFor(rs, verb) && r.verb != verb
    ensures NoneFor(rs + [r], verb)
  {
  }

  lemma NothingScanned(rs: seq<Route>, path: string, verb: Verb)
    ensures Scanned(rs, 0, path, verb, [])
  {
  }

  lemma CompiledMatch(rs: seq<Route>, i: nat, path: string)
    requires i < |rs| && Compiles(rs[i])
    ensures MatchExpression(rs[i].expression, path) == MatchPath(rs[i].pattern, path)
  {
  }

  lemma ScannedNext(rs: seq<Route>, i: nat, path: string, verb: Verb, allowed: seq<Verb>)
    requires i < |rs| && Dynamic(rs[i].pattern) && Scanned(rs, i, path, verb, allowed)
    requires MatchPath(rs[i].pattern, path).Some? ==> rs[i].verb != verb
    ensures Scanned(rs, i + 1, path, verb,
                    if MatchPath(rs[i].pattern, path).Some? then AddAllowed(allowed, rs[i].verb) else allowed)
  {
    hide MatchingFor, NoneFor, Verbs, MatchPath, Dynamic;
    MatchingNext(rs, i, path);
    var before := MatchingFor(rs[..i], path);
    assert before + [] == before;
    if MatchPath(rs[i].pattern, path).Some? {
      VerbsSnoc(before, rs[i]);
      NoneSnoc(before, rs[i], verb);
    }
  }

  lemma {:induction false} MatchingConcat(a: seq<Route>, b: seq<Route>, path: string)
    ensures MatchingFor(a + b, path) == MatchingFor(a, path) + MatchingFor(b, path)
  {
    hide MatchPath, Dynamic;
    if b == [] {
      assert a + b == a;
    } else {
      assert (a + b)[..|a + b| - 1] == a + b[..|b| - 1];
      MatchingConcat(a, b[..|b| - 1], path);
    }
  }

  lemma MatchingNext(rs: seq<Route>, i: nat, path: string)
    requires i < |rs| && Dynamic(rs[i].pattern)
    ensures MatchingFor(rs[..i + 1], path) ==
            MatchingFor(rs[..i], path) + if MatchPath(rs[i].pattern, path).Some? then [rs[i]] else []
  {
    hide MatchPath, Dynamic;
    assert rs[..i + 1][..i] == rs[..i];
  }

  lemma MatchingSnoc(rs: seq<Route>, r: Route, path: string)
    ensures MatchingFor(rs + [r], path) ==
            MatchingFor(rs, path) + if Dynamic(r.pattern) && MatchPath(r.pattern, path).Some? then [r] else []
  {
    hide MatchPath, Dynamic;
    assert (rs + [r])[..|rs|] == rs;
  }

  /** Only dynamic routes can match. */
  lemma {:induction false} DynamicsMatch(rs: seq<Route>, path: string)
    ensures MatchingFor(Dynamics(rs), path) == MatchingFor(rs, path)
  {
    hide MatchPath, Dynamic, MatchingFor;
    if rs != [] {
      var n := |rs| - 1;
      DynamicsMatch(rs[..n], path);
      assert rs == rs[..n] + [rs[n]];
      MatchingSnoc(rs[..n], rs[n], path);
      MatchingSnoc(Dynamics(rs[..n]), rs[n], path);
      assert Dynamics(rs[..n]) + [] == Dynamics(rs[..n]);
    }
  }

  lemma {:induction false} DynamicsCompile(rs: seq<Route>)
    requires AllCompile(rs)
    ensures forall i :: 0 <= i < |Dynamics(rs)| ==> Compiles(Dynamics(rs)[i]) && Dynamic(Dynamics(rs)[i].pattern)
  {
    hide Compiles, Dynamic;
    if rs != [] {
      DynamicsCompile(rs[..|rs| - 1]);
    }
  }

  /** The first match for the verb in a list is the first among all matches. */
  lemma FirstAmong(rs: seq<Route>, i: nat, path: string, verb: Verb, allowed: seq<Verb>)
    requires i < |rs| && rs[i].verb == verb && Scanned(rs, i, path, verb, allowed)
    requires Dynamic(rs[i].pattern) && MatchPath(rs[i].pattern, path).Some?
    ensures FirstFor(MatchingFor(rs, path), verb, rs[i])
  {
    hide MatchingFor, MatchPath, Dynamic, Verbs;
    MatchingNext(rs, i, path);
    assert rs == rs[..i + 1] + rs[i + 1..];
    MatchingConcat(rs[..i + 1], rs[i + 1..], path);
    var before, after := MatchingFor(rs[..i], path), MatchingFor(rs[i + 1..], path);
    FirstOf(before, rs[i], after, verb);
  }

  lemma FirstOf(before: seq<Route>, r: Route, after: seq<Route>, verb: Verb)
    requires NoneFor(before, verb) && r.verb == verb
    ensures FirstFor(before + [r] + after, verb, r)
  {
    var all := before + [r] + after;
    assert all[|before|] == r && all[..|before|] == before;
  }

  lemma {:induction false} MatchingMember(rs: seq<Route>, path: string, i: nat)
    requires i < |MatchingFor(rs, path)|
    ensures exists k :: 0 <= k < |rs| && rs[k] == MatchingFor(rs, path)[i] && Dynamic(rs[k].pattern)
  {
    hide MatchPath, Dynamic;
    var n := |rs| - 1;
    if i < |MatchingFor(rs[..n], path)| {
      MatchingMember(rs[..n], path, i);
      var k :| 0 <= k < n && rs[..n][k] == MatchingFor(rs[..n], path)[i] && Dynamic(rs[..n][k].pattern);
      assert rs[k] == rs[..n][k];
    }
  }

  lemma MatchingMembers(rs: seq<Route>, path: string, verb: Verb, r: Route)
    requires FirstFor(MatchingFor(rs, path), verb, r) && AllCompile(rs)
    ensures Compiles(r) && Dynamic(r.pattern)
  {
    hide MatchingFor, Compiles, Dynamic;
    var i :| 0 <= i < |MatchingFor(rs, path)| && MatchingFor(rs, path)[i] == r;
    MatchingMember(rs, path, i);
  }

  lemma {:induction false} ExactMember(rs: seq<Route>, path: string, i: nat)
    requires i < |ExactFor(rs, path)|
    ensures ExactFor(rs, path)[i].pattern == path && !Dynamic(path)
  {
    hide Dynamic;
    var n := |rs| - 1;
    if i < |ExactFor(rs[..n], path)| { ExactMember(rs[..n], path, i); }
  }

  lemma ExactIsNotDynamic(rs: seq<Route>, path: string, verb: Verb, r: Route)
    requires FirstFor(ExactFor(rs, path), verb, r)
    ensures !Dynamic(r.pattern)
  {
    hide ExactFor, Dynamic;
    var i :| 0 <= i < |ExactFor(rs, path)| && ExactFor(rs, path)[i] == r;
    ExactMember(rs, path, i);
  }

  // ---------- the choice, told by the order of registration ----------

  predicate Literal(r: Route, path: string) { !Dynamic(r.pattern) && r.pattern == path }

  ghost predicate SomeLiteral(rs: seq<Route>, path: string) { exists i :: 0 <= i < |rs| && Literal(rs[i], path) }

  /** The route counts for the path: it is the path literally, or matches it while no route of any verb is
      the path literally. */
  ghost predicate Eligible(rs: seq<Route>, path: string, r: Route) {
    Literal(r, path) || (!SomeLiteral(rs, path) && Dynamic(r.pattern) && MatchPath(r.pattern, path).Some?)
  }

  /** Those of the routes rs that count for the path in the whole table, in order. */
  ghost function Counting(all: seq<Route>, rs: seq<Route>, path: string): seq<Route> {
    if rs == [] then []
    else Counting(all, rs[..|rs| - 1], path) + if Eligible(all, path, rs[|rs| - 1]) then [rs[|rs| - 1]] else []
  }

  lemma {:induction false} LiteralsFound(rs: seq<Route>, path: string)
    ensures ExactFor(rs, path) != [] <==> SomeLiteral(rs, path)
  {
    hide Dynamic;
    if rs != [] {
      var n := |rs| - 1;
      LiteralsFound(rs[..n], path);
      if SomeLiteral(rs[..n], path) {
        var i :| 0 <= i < n && Literal(rs[..n][i], path);
        assert Literal(rs[i], path);
      }
      if SomeLiteral(rs, path) && !Literal(rs[n], path) {
        var i :| 0 <= i < |rs| && Literal(rs[i], path);
        assert Literal(rs[..n][i], path);
      }
    }
  }

  lemma {:induction false} CandidatesCount(all: seq<Route>, rs: seq<Route>, path: string)
    requires !SomeLiteral(all, path) ==> ExactFor(rs, path) == []
    ensures Counting(all, rs, path) == if SomeLiteral(all, path) then ExactFor(rs, path) else
                                         ExactFor(rs, path) + MatchingFor(rs, path)
  {
    hide Dynamic, MatchPath;
    if rs != [] {
      CandidatesCount(all, rs[..|rs| - 1], path);
    }
  }

  /** The route chosen for a verb is the one registered first among those that count for the path. */
  lemma RouteChosenExactly(rs: seq<Route>, path: string, verb: Verb, r: Route)
    ensures FirstFor(Candidates(rs, path), verb, r) <==> exists i: nat :: FirstAt(rs, rs, path, verb, r, i)
  {
    CandidatesAreCounting(rs, path);
    FirstCounting(rs, rs, path, verb, r);
    hide Eligible, Candidates, FirstFor;
  }

  lemma CandidatesAreCounting(rs: seq<Route>, path: string)
    ensures Candidates(rs, path) == Counting(rs, rs, path)
  {
    hide SomeLiteral;
    LiteralsFound(rs, path);
    CandidatesCount(rs, rs, path);
    assert [] + MatchingFor(rs, path) == MatchingFor(rs, path);
  }

  lemma FirstSnoc(cs: seq<Route>, x: Route, verb: Verb, r: Route)
    ensures FirstFor(cs + [x], verb, r) <==> FirstFor(cs, verb, r) || (NoneFor(cs, verb) && x == r && r.verb == verb)
  {
    var ds := cs + [x];
    if FirstFor(cs, verb, r) {
      var i :| 0 <= i < |cs| && cs[i] == r && r.verb == verb && NoneFor(cs[..i], verb);
      assert ds[i] == r && ds[..i] == cs[..i];
    }
    if NoneFor(cs, verb) && x == r && r.verb == verb {
      assert ds[|cs|] == r && ds[..|cs|] == cs;
    }
    if FirstFor(ds, verb, r) {
      var i :| 0 <= i < |ds| && ds[i] == r && r.verb == verb && NoneFor(ds[..i], verb);
      if i < |cs| { assert ds[..i] == cs[..i]; } else { assert ds[..i] == cs; }
    }
  }

  lemma {:induction false} NoneCounting(all: seq<Route>, rs: seq<Route>, path: string, verb: Verb)
    ensures NoneFor(Counting(all, rs, path), verb) <==>
            forall j :: 0 <= j < |rs| && rs[j].verb == verb ==> !Eligible(all, path, rs[j])
  {
    hide Eligible;
    if rs != [] {
      var n := |rs| - 1;
      NoneCounting(all, rs[..n], path, verb);
      var before := Counting(all, rs[..n], path);
      assert forall j :: 0 <= j < n ==> rs[..n][j] == rs[j];
      if Eligible(all, path, rs[n]) {
        assert forall j :: 0 <= j < |before| ==> (before + [rs[n]])[j] == before[j];
        assert (before + [rs[n]])[|before|] == rs[n];
      } else {
        assert before + [] == before;
      }
    }
  }

  /** Position i of rs holds its first route for the verb that counts for the path. */
  ghost predicate FirstAt(all: seq<Route>, rs: seq<Route>, path: string, verb: Verb, r: Route, i: nat) {
    && i < |rs| && rs[i] == r && r.verb == verb && Eligible(all, path, r)
    && forall j :: 0 <= j < i && rs[j].verb == verb ==> !Eligible(all, path, rs[j])
  }

  lemma {:induction false} FirstCounting(all: seq<Route>, rs: seq<Route>, path: string, verb: Verb, r: Route)
    ensures FirstFor(Counting(all, rs, path), verb, r) <==> exists i: nat :: FirstAt(all, rs, path, verb, r, i)
  {
    hide Eligible, FirstFor, NoneFor;
    if rs == [] {
      NothingFirst(verb, r);
    } else {
      var n := |rs| - 1;
      FirstCounting(all, rs[..n], path, verb, r);
      NoneCounting(all, rs[..n], path, verb);
      FirstAtSnoc(all, rs, path, verb, r);
      var before := Counting(all, rs[..n], path);
      if Eligible(all, path, rs[n]) { FirstSnoc(before, rs[n], verb, r); } else { assert before + [] == before; }
    }
  }

  lemma NothingFirst(verb: Verb, r: Route)
    ensures !FirstFor([], verb, r)
  {
  }

  lemma FirstAtSnoc(all: seq<Route>, rs: seq<Route>, path: string, verb: Verb, r: Route)
    requires rs != []
    ensures var n := |rs| - 1;
            (exists i: nat :: FirstAt(all, rs, path, verb, r, i)) <==>
            || (exists i: nat :: FirstAt(all, rs[..n], path, verb, r, i))
            || (rs[n] == r && r.verb == verb && Eligible(all, path, r)
                && forall j :: 0 <= j < n && rs[..n][j].verb == verb ==> !Eligible(all, path, rs[..n][j]))
  {
    hide Eligible;
    var n := |rs| - 1;
    assert forall j :: 0 <= j < n ==> rs[..n][j] == rs[j];
    if i: nat :| FirstAt(all, rs, path, verb, r, i) {
      if i < n { assert FirstAt(all, rs[..n], path, verb, r, i); }
    }
    if i: nat :| FirstAt(all, rs[..n], path, verb, r, i) { assert FirstAt(all, rs, path, verb, r, i); }
    if rs[n] == r && r.verb == verb && Eligible(all, path, r)
       && forall j :: 0 <= j < n && rs[..n][j].verb == verb ==> !Eligible(all, path, rs[..n][j]) {
      assert FirstAt(all, rs, path, verb, r, n);
    }
  }

  /** The verbs reported with a refusal are exactly those of the routes that count for the path. */
  lemma AllowedExactly(rs: seq<Route>, path: string, verb: Verb)
    ensures verb in Verbs(Candidates(rs, path)) <==>
            exists i :: 0 <= i < |rs| && rs[i].verb == verb && Eligible(rs, path, rs[i])
  {
    hide Eligible, Candidates;
    CandidatesAreCounting(rs, path);
    NoneCounting(rs, rs, path, verb);
    VerbsExact(Candidates(rs, path));
  }
}
