/** Author-defined functions (authorfuncs): the cycle check over their template
    bodies, why it makes evaluation terminate, and the binding of arguments. */
module AuthorFuncs {
  import opened Base
  import opened Digraph
  import opened CycleCheck

  // ---------------------------------------------------------------------
  // detectCycle

  // Each function on the stack calls the one above it.
  ghost predicate CallChain(refs: Deps, stack: seq<Name>) {
    forall i | 0 < i < |stack| :: (stack[i - 1], stack[i]) in EdgesOf(refs)
  }

  // A closed walk of real references that repeats nothing but its first name.
  ghost predicate CallCycle(refs: Deps, path: seq<Name>) {
    ClosedWalk(EdgesOf(refs), path) && Distinct(path[..|path| - 1])
  }

  // The path formatCycle prints.
  method CyclePath(stack: seq<Name>, dep: Name) returns (path: seq<Name>)
    ensures dep !in stack ==> path == stack + [dep]
    ensures dep in stack ==> exists start :: 0 <= start < |stack| && stack[start] == dep && dep !in stack[..start]
                                             && path == stack[start..] + [dep]
  {
    var start := 0;
    for i := 0 to |stack|
      invariant dep !in stack[..i] && start == 0
    {
      if stack[i] == dep {
        start := i;
        return stack[start..] + [dep];
      }
    }
    assert stack[..|stack|] == stack && stack[0..] == stack;
    path := stack[start..] + [dep];
  }

  lemma StackTailCycle(refs: Deps, stack: seq<Name>, start: nat, dep: Name)
    requires CallChain(refs, stack) && Distinct(stack) && start < |stack| && stack[start] == dep
    requires (stack[|stack| - 1], dep) in EdgesOf(refs)
    ensures CallCycle(refs, stack[start..] + [dep])
  {
    var p := stack[start..] + [dep];
    hide EdgesOf;
    assert forall i | 0 <= i < |p| - 1 :: p[i] == stack[start + i];
    forall i | 0 <= i < |p| - 1 ensures (p[i], p[i + 1]) in EdgesOf(refs) {
      if i + 1 < |p| - 1 {
        assert (stack[start + i + 1 - 1], stack[start + i + 1]) in EdgesOf(refs);
      }
    }
    assert p[..|p| - 1] == stack[start..];
  }

  class CycleDetector {
    const refs: Deps
    var color: map<Name, int>  // absent: white; 1: gray; 2: black
    var stack: seq<Name>
    ghost var black: seq<Name>

    constructor (refs: Deps)
      ensures this.refs == refs && Valid() && stack == [] && black == []
    {
      this.refs := refs;
      color, stack, black := map[], [], [];
    }

    ghost predicate Valid()
      reads this
    {
      && Coloured(color, stack, black) && CallChain(refs, stack)
      && Topological(EdgesOf(refs), black)
      && Elems(stack) + Elems(black) <= refs.Keys + Targets(refs)
    }

    // Names neither on the stack nor fully explored.
    ghost function White(): set<Name>
      reads this
    {
      refs.Keys + Targets(refs) - Elems(stack) - Elems(black)
    }

    // [] stands for the empty message.
    method Visit(name: Name) returns (cycle: seq<Name>)
      requires Valid() && StateOf(color, name) == 0 && name in refs.Keys + Targets(refs)
      requires stack != [] ==> (stack[|stack| - 1], name) in EdgesOf(refs)
      modifies this
      ensures cycle != [] ==> CallCycle(refs, cycle)
      ensures cycle == [] ==> Valid() && stack == old(stack) && old(black) <= black && name in black
      decreases White()
    {
      ghost var below, before, white := stack, black, White();
      Enter(name);
      hide *;
      CycleFinder.NothingToDo(Succ(refs, name), black);
      for i := 0 to |Succ(refs, name)|
        invariant Valid() && stack == below + [name]
        invariant before <= black && White() < white
        invariant CycleFinder.Done(Succ(refs, name)[..i], black)
      {
        var dep := Succ(refs, name)[i];
        EdgeOf(refs, name, dep);
        Facts(dep);
        if StateOf(color, dep) == 1 {
          cycle := Close(dep);
          return;
        }
        if StateOf(color, dep) == 0 {
          ghost var now := black;
          cycle := Visit(dep);
          if cycle != [] {
            return;
          }
          CycleFinder.FewerUnseen(refs, stack, now, black);
          WhiteIs(now);
          CycleFinder.DoneLater(Succ(refs, name)[..i], now, black);
        }
        CycleFinder.DoneNext(Succ(refs, name), i, black);
      }
      assert Succ(refs, name)[..|Succ(refs, name)|] == Succ(refs, name);
      Leave(name, below);
      cycle := [];
    }

    lemma WhiteIs(before: seq<Name>)
      ensures White() == CycleFinder.Universe(refs) - Elems(stack) - Elems(black)
      ensures refs.Keys + Targets(refs) == CycleFinder.Universe(refs)
    {
    }

    method Close(dep: Name) returns (path: seq<Name>)
      requires CallChain(refs, stack) && Distinct(stack) && dep in stack
      requires (stack[|stack| - 1], dep) in EdgesOf(refs)
      ensures path != [] && CallCycle(refs, path)
    {
      hide EdgesOf, CallChain, CallCycle, Distinct;
      path := CyclePath(stack, dep);
      ghost var start :| 0 <= start < |stack| && stack[start] == dep && path == stack[start..] + [dep];
      StackTailCycle(refs, stack, start, dep);
    }

    lemma Facts(dep: Name)
      requires Valid() && stack != [] && (stack[|stack| - 1], dep) in EdgesOf(refs)
      ensures CallChain(refs, stack) && Distinct(stack)
      ensures dep in refs.Keys + Targets(refs)
      ensures StateOf(color, dep) == 1 <==> dep in stack
      ensures StateOf(color, dep) != 0 && StateOf(color, dep) != 1 ==> dep in black
    {
    }

    method Enter(name: Name)
      requires Valid() && StateOf(color, name) == 0 && name in refs.Keys + Targets(refs)
      requires stack != [] ==> (stack[|stack| - 1], name) in EdgesOf(refs)
      modifies this`color, this`stack
      ensures Valid() && stack == old(stack) + [name]
      ensures White() < old(White())
    {
      Push(color, stack, black, name);
      assert Elems(stack + [name]) == Elems(stack) + {name};
      assert name in White();
      color := color[name := 1];
      stack := stack + [name];
    }

    method Leave(name: Name, ghost below: seq<Name>)
      requires Valid() && stack == below + [name]
      requires CycleFinder.Done(Succ(refs, name), black)
      modifies this`color, this`stack, this`black
      ensures Valid() && stack == below && black == old(black) + [name]
    {
      Pop(color, below, black, name);
      forall b | (name, b) in EdgesOf(refs) ensures b in black { EdgeOf(refs, name, b); }
      TopologicalSnoc(EdgesOf(refs), black, name);
      assert forall i | 0 <= i < |below| :: stack[i] == below[i];
      assert stack[..|stack| - 1] == below;
      assert name in stack && Elems(stack) == Elems(below) + {name};
      color := color[name := 2];
      stack := stack[..|stack| - 1];
      black := black + [name];
    }
  }

  // detectCycle: order lists the compiled functions, whose references are refs.
  method DetectCycle(refs: Deps, order: seq<Name>) returns (cycle: seq<Name>)
    requires Elems(order) == refs.Keys
    ensures cycle == [] <==> !Cyclic(EdgesOf(refs))
    ensures cycle != [] ==> CallCycle(refs, cycle)
  {
    var d := new CycleDetector(refs);
    for i := 0 to |order|
      invariant d.refs == refs && d.Valid() && d.stack == [] && fresh(d)
      invariant forall k | 0 <= k < i :: order[k] in d.black
    {
      assert order[i] in Elems(order);
      if StateOf(d.color, order[i]) == 0 {
        cycle := d.Visit(order[i]);
        if cycle != [] {
          assert ClosedWalk(EdgesOf(refs), cycle);
          return;
        }
      }
    }
    forall a | a in Sources(EdgesOf(refs)) ensures a in d.black {
      assert a in Elems(order);
    }
    TopologicalAcyclic(EdgesOf(refs), d.black);
    cycle := [];
  }

  // filterAuthorRefs: the calls that name author functions, sorted.
  method FilterAuthorRefs(calls: seq<Name>, allNames: seq<Name>) returns (refs: seq<Name>)
    ensures forall n :: n in refs <==> n in calls && n in allNames
    ensures Sorted(refs)
  {
    var names: set<Name> := {};
    for i := 0 to |allNames|
      invariant forall n :: n in names <==> n in allNames[..i]
    {
      names := names + {allNames[i]};
    }
    assert allNames[..|allNames|] == allNames;
    refs := [];
    for i := 0 to |calls|
      invariant forall n :: n in refs <==> n in calls[..i] && n in allNames
    {
      assert calls[..i + 1] == calls[..i] + [calls[i]];
      if calls[i] in names {
        refs := refs + [calls[i]];
      }
    }
    assert calls[..|calls|] == calls;
    ghost var unsorted := refs;
    SortStringsSorted(refs);
    refs := SortStrings(refs);
    forall n ensures n in refs <==> n in unsorted {
      assert n in refs <==> n in multiset(refs);
      assert n in unsorted <==> n in multiset(unsorted);
    }
  }

  // ---------------------------------------------------------------------
  // Evaluation

  type Val = string

  datatype Outcome = Value(v: Val) | Failure(error: string)

  datatype Step = End(out: Outcome) | Invoke(fn: Name, args: seq<Val>)

  // A body at work: what it does next, given what its calls returned so far.
  // Rendering one template makes finitely many calls itself, at most so many.
  datatype Body = Body(next: seq<Outcome> -> Step, most: nat)

  // The functions a template may call, with the body each runs on its arguments.
  type Library = map<Name, seq<Val> -> Body>

  // Every call a body can make names one of the references.
  ghost predicate CallsOnly(b: Body, refs: seq<Name>) {
    forall past :: StepOk(b, past, refs)
  }

  predicate StepOk(b: Body, past: seq<Outcome>, refs: seq<Name>) {
    match b.next(past)
    case End(_) => true
    case Invoke(fn, _) => |past| < b.most && fn in refs
  }

  // refs lists every author call, and, as filterAuthorRefs sees to, nothing else.
  ghost predicate ListsCalls(lib: Library, refs: Deps) {
    && lib.Keys == refs.Keys
    && (forall f, args: seq<Val> | f in lib :: CallsOnly(lib[f](args), refs[f]))
    && forall f | f in refs :: Elems(refs[f]) <= refs.Keys
  }

  // Calls a function allowing so many calls inside one another; None when that
  // is not enough.
  function Call(lib: Library, depth: nat, fn: Name, args: seq<Val>): Option<Outcome>
    decreases depth, 0, 0
  {
    if depth == 0 then None
    else if fn !in lib then Some(Failure("function not defined"))
    else Run(lib, depth - 1, lib[fn](args), [])
  }

  function Run(lib: Library, depth: nat, b: Body, past: seq<Outcome>): Option<Outcome>
    decreases depth, 1, b.most - |past|
  {
    match b.next(past)
    case End(out) => Some(out)
    case Invoke(fn, args) =>
      if |past| >= b.most then None
      else
        match Call(lib, depth, fn, args)
        case None => None
        case Some(out) => Run(lib, depth, b, past + [out])
  }

  lemma {:induction false} CallEnds(lib: Library, refs: Deps, depth: nat, fn: Name, args: seq<Val>)
    requires ListsCalls(lib, refs) && fn in lib && !HasWalk(EdgesOf(refs), fn, depth)
    ensures Call(lib, depth, fn, args).Some?
    decreases depth, 0, 0
  {
    RunEnds(lib, refs, depth - 1, fn, lib[fn](args), []);
  }

  lemma {:induction false} RunEnds(lib: Library, refs: Deps, depth: nat, caller: Name, b: Body, past: seq<Outcome>)
    requires ListsCalls(lib, refs) && caller in refs && CallsOnly(b, refs[caller])
    requires !HasWalk(EdgesOf(refs), caller, depth + 1)
    ensures Run(lib, depth, b, past).Some?
    decreases depth, 1, b.most - |past|
  {
    assert StepOk(b, past, refs[caller]);
    match b.next(past) {
      case End(_) =>
      case Invoke(fn, args) =>
        EdgeOf(refs, caller, fn);
        assert fn in Elems(refs[caller]);
        CallEnds(lib, refs, depth, fn, args);
        RunEnds(lib, refs, depth, caller, b, past + [Call(lib, depth, fn, args).value]);
    }
  }

  // A chain of calls passes through different functions.
  lemma ChainsAreShort(refs: Deps, fn: Name)
    requires !Cyclic(EdgesOf(refs)) && fn in refs && forall f | f in refs :: Elems(refs[f]) <= refs.Keys
    ensures !HasWalk(EdgesOf(refs), fn, |refs.Keys|)
  {
    var r := EdgesOf(refs);
    if HasWalk(r, fn, |refs.Keys|) {
      var p := WalkOf(r, fn, |refs.Keys|);
      forall x | x in p ensures x in refs.Keys {
        var i :| 0 <= i < |p| && p[i] == x;
        if i > 0 {
          assert (p[i - 1], p[i]) in r;
          assert p[i] in Elems(refs[p[i - 1]]);
        }
      }
      Pigeonhole(p, refs.Keys);
      var i, j :| 0 <= i < j < |p| && p[i] == p[j];
      var c := p[i..j + 1];
      assert forall k | 0 <= k < |c| :: c[k] == p[i + k];
      assert ClosedWalk(r, c);
    }
  }

  // When the check passes, calling any function with any arguments ends, with
  // no more calls inside one another than there are functions.
  lemma EvaluationTerminates(lib: Library, refs: Deps, fn: Name, args: seq<Val>)
    requires ListsCalls(lib, refs) && !Cyclic(EdgesOf(refs)) && fn in lib
    ensures Call(lib, |refs.Keys|, fn, args).Some?
  {
    ChainsAreShort(refs, fn);
    CallEnds(lib, refs, |refs.Keys|, fn, args);
  }

  // Allowing more depth changes nothing.
  lemma {:induction false} DeeperCall(lib: Library, d: nat, e: nat, fn: Name, args: seq<Val>)
    requires d <= e && Call(lib, d, fn, args).Some?
    ensures Call(lib, e, fn, args) == Call(lib, d, fn, args)
    decreases d, 0, 0
  {
    if fn in lib { DeeperRun(lib, d - 1, e - 1, lib[fn](args), []); }
  }

  lemma {:induction false} DeeperRun(lib: Library, d: nat, e: nat, b: Body, past: seq<Outcome>)
    requires d <= e && Run(lib, d, b, past).Some?
    ensures Run(lib, e, b, past) == Run(lib, d, b, past)
    decreases d, 1, b.most - |past|
  {
    match b.next(past) {
      case End(_) =>
      case Invoke(fn, args) =>
        DeeperCall(lib, d, e, fn, args);
        DeeperRun(lib, d, e, b, past + [Call(lib, d, fn, args).value]);
    }
  }

  // The bound cannot be lowered: a chain of functions each calling the next
  // needs as many nested calls as it has functions.
  lemma {:induction false} ChainNeedsAll(lib: Library, names: seq<Name>, depth: nat, args: seq<Val>)
    requires names != [] && depth < |names|
    requires forall i | 0 <= i < |names| :: names[i] in lib
    requires forall i, a: seq<Val> | 0 <= i < |names| - 1 ::
               lib[names[i]](a).next([]) == Invoke(names[i + 1], []) && lib[names[i]](a).most > 0
    ensures Call(lib, depth, names[0], args) == None
    decreases depth
  {
    if depth > 0 {
      var rest := names[1..];
      assert forall i | 0 <= i < |rest| :: rest[i] == names[i + 1];
      ChainNeedsAll(lib, rest, depth - 1, []);
      assert lib[names[0]](args).next([]) == Invoke(names[1], []);
    }
  }

  // The calls a body made so far and what they returned, each within depth.
  ghost predicate Conversation(lib: Library, depth: nat, b: Body, past: seq<Outcome>) {
    |past| <= b.most && forall j | 0 <= j < |past| :: Answered(lib, depth, b, past, j)
  }

  ghost predicate Answered(lib: Library, depth: nat, b: Body, past: seq<Outcome>, j: nat)
    requires j < |past|
  {
    b.next(past[..j]).Invoke?
    && Call(lib, depth, b.next(past[..j]).fn, b.next(past[..j]).args) == Some(past[j])
  }

  lemma {:induction false} RunExactly(lib: Library, depth: nat, b: Body, past: seq<Outcome>, out: Outcome)
    requires Conversation(lib, depth, b, past)
    ensures Run(lib, depth, b, past) == Some(out) <==>
              exists all :: past <= all && Conversation(lib, depth, b, all) && b.next(all) == End(out)
    decreases b.most - |past|
  {
    hide Call;
    if b.next(past).End? {
      forall all | past <= all && Conversation(lib, depth, b, all) ensures all == past {
        NoFurther(lib, depth, b, past, all);
      }
    } else {
      var fn, args := b.next(past).fn, b.next(past).args;
      var answer := Call(lib, depth, fn, args);
      forall all | past <= all && Conversation(lib, depth, b, all) && b.next(all).End?
        ensures |past| < b.most && answer.Some? && past + [answer.value] <= all
      {
        OneFurther(lib, depth, b, past, all);
      }
      if |past| < b.most && answer.Some? {
        Longer(lib, depth, b, past, answer.value);
        RunExactly(lib, depth, b, past + [answer.value], out);
      }
    }
  }

  lemma NoFurther(lib: Library, depth: nat, b: Body, past: seq<Outcome>, all: seq<Outcome>)
    requires past <= all && Conversation(lib, depth, b, all) && b.next(past).End?
    ensures all == past
  {
    hide Call;
    if |past| < |all| {
      AnsweredNext(lib, depth, b, past, all);
    } else {
      SameSeq(past, all);
    }
  }

  lemma SameSeq<T>(a: seq<T>, b: seq<T>)
    requires a <= b && |a| >= |b|
    ensures a == b
  {
  }

  lemma AnsweredNext(lib: Library, depth: nat, b: Body, past: seq<Outcome>, all: seq<Outcome>)
    requires past <= all && |past| < |all| && Conversation(lib, depth, b, all)
    ensures b.next(past).Invoke? && |past| < b.most
    ensures Call(lib, depth, b.next(past).fn, b.next(past).args) == Some(all[|past|])
  {
    hide Call;
    assert Answered(lib, depth, b, all, |past|);
    assert all[..|past|] == past;
  }

  lemma OneFurther(lib: Library, depth: nat, b: Body, past: seq<Outcome>, all: seq<Outcome>)
    requires past <= all && Conversation(lib, depth, b, all) && b.next(past).Invoke? && b.next(all).End?
    ensures |past| < b.most
    ensures var answer := Call(lib, depth, b.next(past).fn, b.next(past).args);
      answer.Some? && past + [answer.value] <= all
  {
    hide Call;
    if |past| < |all| {
      AnsweredNext(lib, depth, b, past, all);
    } else {
      SameSeq(past, all);
    }
  }

  lemma Longer(lib: Library, depth: nat, b: Body, past: seq<Outcome>, answer: Outcome)
    requires Conversation(lib, depth, b, past) && |past| < b.most && b.next(past).Invoke?
    requires Call(lib, depth, b.next(past).fn, b.next(past).args) == Some(answer)
    ensures Conversation(lib, depth, b, past + [answer])
  {
    hide Call;
    var all := past + [answer];
    forall j | 0 <= j < |all| ensures Answered(lib, depth, b, all, j) {
      if j < |past| {
        assert Answered(lib, depth, b, past, j);
        assert all[..j] == past[..j];
      } else {
        assert all[..j] == past;
      }
    }
  }

  // What a call returns is what its body, run on its arguments, ends with after
  // the answers to the calls it makes itself, each a call of its own; what is
  // not declared cannot be called.
  lemma CallExactly(lib: Library, depth: nat, fn: Name, args: seq<Val>, out: Outcome)
    requires depth > 0
    ensures fn in lib ==>
              (Call(lib, depth, fn, args) == Some(out) <==>
                 exists past :: Conversation(lib, depth - 1, lib[fn](args), past)
                                && lib[fn](args).next(past) == End(out))
    ensures fn !in lib ==> (Call(lib, depth, fn, args) == Some(out) <==> out == Failure("function not defined"))
  {
    if fn in lib { DeclaredCall(lib, depth, fn, args, out); }
  }

  lemma DeclaredCall(lib: Library, depth: nat, fn: Name, args: seq<Val>, out: Outcome)
    requires fn in lib && depth > 0
    ensures Call(lib, depth, fn, args) == Some(out) <==>
              exists past :: Conversation(lib, depth - 1, lib[fn](args), past) && lib[fn](args).next(past) == End(out)
  {
    var b := lib[fn](args);
    RunExactly(lib, depth - 1, b, [], out);
    assert Call(lib, depth, fn, args) == Run(lib, depth - 1, b, []);
    hide Call, Run, Conversation;
    if past :| Conversation(lib, depth - 1, b, past) && b.next(past) == End(out) {
      assert [] <= past;
    }
  }

  // ---------------------------------------------------------------------
  // Parameters

  datatype Param = Param(name: Name, kind: string, required: bool, default: Option<Val>)

  predicate Identifier(s: string) {
    && s != [] && !('0' <= s[0] <= '9')
    && forall c | c in s :: 'a' <= c <= 'z' || 'A' <= c <= 'Z' || c == '_' || '0' <= c <= '9'
  }

  // Declared types are known by their lower-case text.
  predicate KnownType(kind: string) {
    kind == "" || Lower(kind) in {"string", "int", "integer", "float", "number", "bool", "boolean", "array", "object",
                                  "map", "time", "timestamp", "datetime", "duration", "any"}
  }

  function Lower(s: string): string {
    if s == [] then []
    else [if 'A' <= s[0] <= 'Z' then (s[0] as int + 32) as char else s[0]] + Lower(s[1..])
  }

  predicate FineAlone(p: Param) {
    Identifier(p.name) && !(p.required && p.default.Some?) && KnownType(p.kind)
  }

  // The declarations validateParams has nothing to say about.
  ghost predicate ValidParams(params: seq<Param>) {
    && (forall i | 0 <= i < |params| :: FineAlone(params[i]))
    && (forall i, j | 0 <= i < j < |params| :: params[i].name != params[j].name)
    && forall i, j | 0 <= i < j < |params| :: params[j].required ==> params[i].required
  }

  datatype Problem = BadName(i: nat) | Duplicate(i: nat) | RequiredDefault(i: nat) | RequiredAfterOptional(i: nat)
                   | UnknownType(i: nat)

  method ValidateParams(params: seq<Param>) returns (problems: seq<Problem>)
    ensures problems == [] <==> ValidParams(params)
  {
    problems := [];
    var seen: set<Name> := {};
    var sawOptional := false;
    for i := 0 to |params|
      invariant problems == [] <==> ValidParams(params[..i])
      invariant forall n :: n in seen <==> exists k :: 0 <= k < i && params[k].name == n
      invariant sawOptional <==> exists k :: 0 <= k < i && !params[k].required
    {
      ValidOneMore(params, i);
      hide *;
      var found := CheckParam(params[i], i, seen, sawOptional);
      problems := problems + found;
      seen := seen + {params[i].name};
      sawOptional := sawOptional || !params[i].required;
    }
    assert params[..|params|] == params;
  }

  // The loop's checks of one parameter.
  method CheckParam(p: Param, i: nat, seen: set<Name>, sawOptional: bool) returns (problems: seq<Problem>)
    ensures problems == [] <==> FineAlone(p) && p.name !in seen && !(p.required && sawOptional)
  {
    hide Identifier, KnownType;
    problems := [];
    if !Identifier(p.name) {
      problems := problems + [BadName(i)];
    }
    if p.name in seen {
      problems := problems + [Duplicate(i)];
    }
    if p.required && p.default.Some? {
      problems := problems + [RequiredDefault(i)];
    }
    if p.required && sawOptional {
      problems := problems + [RequiredAfterOptional(i)];
    }
    if !KnownType(p.kind) {
      problems := problems + [UnknownType(i)];
    }
  }

  lemma ValidOneMore(params: seq<Param>, i: nat)
    requires i < |params|
    ensures ValidParams(params[..i + 1]) <==>
              && ValidParams(params[..i]) && FineAlone(params[i])
              && !(exists k :: 0 <= k < i && params[k].name == params[i].name)
              && !(params[i].required && exists k :: 0 <= k < i && !params[k].required)
  {
    hide FineAlone;
    var a, b := params[..i], params[..i + 1];
    assert forall k | 0 <= k < i :: a[k] == b[k] == params[k];
    assert b[i] == params[i];
    if ValidParams(b) {
      forall j, k | 0 <= j < k < |a| ensures a[j].name != a[k].name && (a[k].required ==> a[j].required) {
        assert b[j] == a[j] && b[k] == a[k];
      }
    }
  }

  datatype BindError = TooMany | MissingRequired(i: nat) | BadValue(i: nat)

  // A value as its declared type, if it can be.
  type Coercion = (Option<Val>, string) -> Option<Val>

  function Raw(p: Param, args: seq<Val>, i: nat): Option<Val> {
    if i < |args| then Some(args[i]) else p.default
  }

  // A parameter's value: the argument at its place, or its default.
  method BindArgs(params: seq<Param>, args: seq<Val>, coerce: Coercion) returns (r: Result<map<Name, Val>, BindError>)
    ensures r.Ok? <==>
              && |args| <= |params|
              && (forall i | |args| <= i < |params| :: !params[i].required)
              && forall i | 0 <= i < |params| :: Coerced(params, args, coerce, i).Some?
    ensures r.Ok? ==> r.value.Keys == set p | p in params :: p.name
    ensures r.Ok? && ValidParams(params) ==>
              forall i | 0 <= i < |params| ::
                params[i].name in r.value && Some(r.value[params[i].name]) == Coerced(params, args, coerce, i)
    ensures r == Err(TooMany) <==> |args| > |params|
    ensures r.Err? && r.error.MissingRequired? ==>
              && |args| <= r.error.i < |params| && params[r.error.i].required
              && NoneWrongBefore(params, args, coerce, r.error.i)
    ensures r.Err? && r.error.BadValue? ==>
              && r.error.i < |params| && (r.error.i < |args| || !params[r.error.i].required)
              && Coerced(params, args, coerce, r.error.i) == None && NoneWrongBefore(params, args, coerce, r.error.i)
  {
    if |args| > |params| {
      return Err(TooMany);
    }
    var bound: map<Name, Val> := map[];
    NothingBound(params, args, coerce);
    for i := 0 to |params|
      invariant forall k | |args| <= k < i :: !params[k].required
      invariant forall k | 0 <= k < i :: Coerced(params, args, coerce, k).Some?
      invariant Bound(params, args, coerce, i, bound)
    {
      hide Bound;
      var p := params[i];
      if i >= |args| && p.required {
        return Err(MissingRequired(i));
      }
      var coerced := coerce(Raw(p, args, i), p.kind);
      assert coerced == Coerced(params, args, coerce, i);
      if coerced.None? {
        return Err(BadValue(i));
      }
      BindOneMore(params, args, coerce, i, bound, coerced.value);
      bound := bound[p.name := coerced.value];
    }
    assert params[..|params|] == params;
    r := Ok(bound);
  }

  ghost function Coerced(params: seq<Param>, args: seq<Val>, coerce: Coercion, i: nat): Option<Val>
    requires i < |params|
  {
    coerce(if i < |args| then Some(args[i]) else params[i].default, params[i].kind)
  }

  ghost predicate NoneWrongBefore(params: seq<Param>, args: seq<Val>, coerce: Coercion, i: nat)
    requires i <= |params|
  {
    forall k | 0 <= k < i :: (k < |args| || !params[k].required) && Coerced(params, args, coerce, k).Some?
  }

  // The first i parameters are bound, each to its own value unless names repeat.
  ghost predicate Bound(params: seq<Param>, args: seq<Val>, coerce: Coercion, i: nat, bound: map<Name, Val>) {
    && i <= |params| && bound.Keys == (set p | p in params[..i] :: p.name)
    && (ValidParams(params) ==>
          forall k | 0 <= k < i ::
            params[k].name in bound && Some(bound[params[k].name]) == Coerced(params, args, coerce, k))
  }

  lemma NothingBound(params: seq<Param>, args: seq<Val>, coerce: Coercion)
    ensures Bound(params, args, coerce, 0, map[])
  {
  }

  lemma BindOneMore(params: seq<Param>, args: seq<Val>, coerce: Coercion, i: nat, bound: map<Name, Val>, v: Val)
    requires i < |params| && Bound(params, args, coerce, i, bound)
    requires Coerced(params, args, coerce, i) == Some(v)
    ensures Bound(params, args, coerce, i + 1, bound[params[i].name := v])
  {
    hide FineAlone, Coerced;
    assert params[..i + 1] == params[..i] + [params[i]];
  }

  ghost function RequiredCount(params: seq<Param>): nat {
    if params == [] then 0 else RequiredCount(params[..|params| - 1]) + (if params[|params| - 1].required then 1 else 0)
  }

  // With required parameters first, a call supplies all of them exactly when it
  // has at least as many arguments as there are required parameters.
  lemma {:induction false} RequiredFirst(params: seq<Param>, n: nat)
    requires ValidParams(params) && n <= |params|
    ensures RequiredCount(params) <= |params|
    ensures (forall i | n <= i < |params| :: !params[i].required) <==> RequiredCount(params) <= n
    decreases |params|
  {
    if params != [] {
      var init := params[..|params| - 1];
      var last := params[|params| - 1];
      assert forall i | 0 <= i < |init| :: init[i] == params[i];
      assert ValidParams(init);
      if n < |params| {
        RequiredFirst(init, n);
        if last.required { AllRequired(params); }
      } else {
        RequiredFirst(init, |init|);
      }
    }
  }

  lemma {:induction false} AllRequired(params: seq<Param>)
    requires forall i | 0 <= i < |params| - 1 :: params[|params| - 1].required ==> params[i].required
    requires params != [] && params[|params| - 1].required
    ensures RequiredCount(params) == |params|
    decreases |params|
  {
    var init := params[..|params| - 1];
    assert forall i | 0 <= i < |init| :: init[i] == params[i];
    if init != [] {
      AllRequired(init);
    }
  }
}
