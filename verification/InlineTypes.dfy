/** Inlining the type declarations that are used once. */
module InlineTypes {
  import opened Basics

  /** `Ref` is a use of a declared type; everything else that a type is built from is a node. */
  datatype Type = Ref(checksum: string) | Node(tag: string, args: seq<Type>)

  datatype Variable = Variable(name: string, typ: Type)

  type Variables = map<string, Variable>

  /** The declared types that a type uses. */
  function Refs(t: Type): set<string> {
    match t
    case Ref(c) => {c}
    case Node(_, args) => RefsAll(args)
  }

  function RefsAll(ts: seq<Type>): set<string> {
    if ts == [] then {} else Refs(ts[0]) + RefsAll(ts[1..])
  }

  /** Replaces every use of `c`. */
  function Replace(t: Type, c: string, u: Type): Type {
    match t
    case Ref(c') => if c' == c then u else t
    case Node(tag, args) => Node(tag, ReplaceAll(args, c, u))
  }

  function ReplaceAll(ts: seq<Type>, c: string, u: Type): seq<Type> {
    if ts == [] then [] else [Replace(ts[0], c, u)] + ReplaceAll(ts[1..], c, u)
  }

  /** An enumeration that is declared by itself is anonymous only as a declaration. */
  function InlineForm(t: Type): Type {
    if t.Node? && t.tag == "AnonymousEnum" then Node("Enum", t.args) else t
  }

  // --------------------------------------------------------------------- meaning

  /** What the nodes mean; both kinds of enumeration mean the same. */
  datatype Meaning<!D(!new)> = Meaning(node: (string, seq<D>) -> D)
  {
    ghost predicate Sound() {
      forall args: seq<D> :: node("AnonymousEnum", args) == node("Enum", args)
    }
  }

  function Eval<D(!new)>(I: Meaning<D>, m: map<string, D>, t: Type): D
    requires Refs(t) <= m.Keys
  {
    match t
    case Ref(c) => m[c]
    case Node(tag, args) => I.node(tag, EvalAll(I, m, args))
  }

  function EvalAll<D(!new)>(I: Meaning<D>, m: map<string, D>, ts: seq<Type>): seq<D>
    requires RefsAll(ts) <= m.Keys
  {
    if ts == [] then [] else [Eval(I, m, ts[0])] + EvalAll(I, m, ts[1..])
  }

  /** Every use is of something declared. */
  ghost predicate Closed(vars: Variables) {
    forall c :: c in vars ==> Refs(vars[c].typ) <= vars.Keys
  }

  /** `m` gives every declared type a meaning that satisfies its declaration. */
  ghost predicate Models<D(!new)>(I: Meaning<D>, vars: Variables, m: map<string, D>) {
    Closed(vars) && m.Keys == vars.Keys && forall c :: c in vars ==> m[c] == Eval(I, m, vars[c].typ)
  }

  function Restrict<D(!new)>(m: map<string, D>, keys: set<string>): map<string, D> {
    map c | c in m && c in keys :: m[c]
  }

  lemma {:induction false} EvalAgrees<D(!new)>(I: Meaning<D>, m: map<string, D>, m': map<string, D>, t: Type)
    requires Refs(t) <= m.Keys && Refs(t) <= m'.Keys && forall c :: c in Refs(t) ==> m[c] == m'[c]
    ensures Eval(I, m, t) == Eval(I, m', t)
  {
    if t.Node? { EvalAllAgrees(I, m, m', t.args); }
  }

  lemma {:induction false} EvalAllAgrees<D(!new)>(I: Meaning<D>, m: map<string, D>, m': map<string, D>, ts: seq<Type>)
    requires RefsAll(ts) <= m.Keys && RefsAll(ts) <= m'.Keys && forall c :: c in RefsAll(ts) ==> m[c] == m'[c]
    ensures EvalAll(I, m, ts) == EvalAll(I, m', ts)
  {
    if ts != [] {
      EvalAgrees(I, m, m', ts[0]);
      EvalAllAgrees(I, m, m', ts[1..]);
    }
  }

  lemma {:induction false} RefsOfReplace(t: Type, c: string, u: Type)
    ensures Refs(Replace(t, c, u)) == if c in Refs(t) then Refs(t) - {c} + Refs(u) else Refs(t)
  {
    if t.Node? { RefsOfReplaceAll(t.args, c, u); }
  }

  lemma {:induction false} RefsOfReplaceAll(ts: seq<Type>, c: string, u: Type)
    ensures RefsAll(ReplaceAll(ts, c, u)) == if c in RefsAll(ts) then RefsAll(ts) - {c} + Refs(u) else RefsAll(ts)
  {
    if ts != [] {
      RefsOfReplace(ts[0], c, u);
      RefsOfReplaceAll(ts[1..], c, u);
      var us := ReplaceAll(ts, c, u);
      assert us[1..] == ReplaceAll(ts[1..], c, u);
    }
  }

  /** Where `c` means what `u` means, replacing does not change the meaning. */
  lemma {:induction false} EvalOfReplace<D(!new)>(I: Meaning<D>, m: map<string, D>, t: Type, c: string, u: Type)
    requires Refs(t) <= m.Keys && Refs(u) <= m.Keys && (c in m ==> m[c] == Eval(I, m, u))
    ensures Refs(Replace(t, c, u)) <= m.Keys && Eval(I, m, Replace(t, c, u)) == Eval(I, m, t)
  {
    RefsOfReplace(t, c, u);
    if t.Node? { EvalAllOfReplace(I, m, t.args, c, u); }
  }

  lemma {:induction false} EvalAllOfReplace<D(!new)>(I: Meaning<D>, m: map<string, D>, ts: seq<Type>, c: string,
                                                     u: Type)
    requires RefsAll(ts) <= m.Keys && Refs(u) <= m.Keys && (c in m ==> m[c] == Eval(I, m, u))
    ensures RefsAll(ReplaceAll(ts, c, u)) <= m.Keys && EvalAll(I, m, ReplaceAll(ts, c, u)) == EvalAll(I, m, ts)
  {
    RefsOfReplaceAll(ts, c, u);
    if ts != [] {
      EvalOfReplace(I, m, ts[0], c, u);
      EvalAllOfReplace(I, m, ts[1..], c, u);
      var us := ReplaceAll(ts, c, u);
      assert us[1..] == ReplaceAll(ts[1..], c, u);
    }
  }

  lemma EvalInlineForm<D(!new)>(I: Meaning<D>, m: map<string, D>, t: Type)
    requires I.Sound() && Refs(t) <= m.Keys
    ensures Refs(InlineForm(t)) == Refs(t) && Eval(I, m, InlineForm(t)) == Eval(I, m, t)
  {
  }

  // --------------------------------------------------------------------- one step

  /** Inlines `c` into `target` and drops its declaration. */
  function Inline(vars: Variables, c: string, target: string): Variables
    requires c in vars && target in vars && c != target
  {
    vars[target := vars[target].(typ := Replace(vars[target].typ, c, InlineForm(vars[c].typ)))] - {c}
  }

  /** No enumeration in the type is anonymous. */
  ghost predicate NoneAnonymous(t: Type) {
    t.Node? ==> t.tag != "AnonymousEnum" && NoneAnonymousIn(t.args)
  }

  ghost predicate NoneAnonymousIn(ts: seq<Type>) {
    ts == [] || (NoneAnonymous(ts[0]) && NoneAnonymousIn(ts[1..]))
  }

  /** An enumeration is anonymous only where it is all of a declaration. */
  ghost predicate AnonymousOnTop(vars: Variables) {
    forall v :: v in vars && vars[v].typ.Node? ==> NoneAnonymousIn(vars[v].typ.args)
  }

  lemma {:induction false} ReplaceKeepsNames(t: Type, c: string, u: Type)
    requires NoneAnonymous(t) && NoneAnonymous(u)
    ensures NoneAnonymous(Replace(t, c, u))
  {
    if t.Node? { ReplaceAllKeepsNames(t.args, c, u); }
  }

  lemma {:induction false} ReplaceAllKeepsNames(ts: seq<Type>, c: string, u: Type)
    requires NoneAnonymousIn(ts) && NoneAnonymous(u)
    ensures NoneAnonymousIn(ReplaceAll(ts, c, u))
  {
    if ts != [] {
      ReplaceKeepsNames(ts[0], c, u);
      ReplaceAllKeepsNames(ts[1..], c, u);
      var us := ReplaceAll(ts, c, u);
      assert us[1..] == ReplaceAll(ts[1..], c, u);
    }
  }

  /** What is inlined is no longer anonymous. */
  lemma InlineKeepsNames(vars: Variables, c: string, target: string)
    requires AnonymousOnTop(vars) && c in vars && target in vars && c != target
    ensures AnonymousOnTop(Inline(vars, c, target))
  {
    var u := InlineForm(vars[c].typ);
    assert "Enum"[0] != "AnonymousEnum"[0];
    assert NoneAnonymous(u);
    if vars[target].typ.Node? {
      ReplaceAllKeepsNames(vars[target].typ.args, c, u);
    }
  }

  /** `c` is used nowhere but in `target`. */
  ghost predicate UsedOnlyIn(vars: Variables, c: string, target: string) {
    forall v :: v in vars && c in Refs(vars[v].typ) ==> v == target
  }

  lemma InlineClosed(vars: Variables, c: string, target: string)
    requires Closed(vars) && c in vars && target in vars && c != target
    requires UsedOnlyIn(vars, c, target)
    ensures Closed(Inline(vars, c, target)) && Inline(vars, c, target).Keys == vars.Keys - {c}
  {
    RefsOfReplace(vars[target].typ, c, InlineForm(vars[c].typ));
    var vars' := Inline(vars, c, target);
    forall v | v in vars' ensures Refs(vars'[v].typ) <= vars'.Keys {
      assert v != target ==> Refs(vars[v].typ) <= vars.Keys;
    }
  }

  /** A meaning of the declarations before is one after. */
  lemma InlineRestricts<D(!new)>(I: Meaning<D>, vars: Variables, c: string, target: string, m: map<string, D>)
    requires I.Sound() && c in vars && target in vars && c != target && UsedOnlyIn(vars, c, target)
    requires Models(I, vars, m)
    ensures Models(I, Inline(vars, c, target), Restrict(m, vars.Keys - {c}))
  {
    var vars' := Inline(vars, c, target);
    var m' := Restrict(m, vars.Keys - {c});
    InlineClosed(vars, c, target);
    var u := InlineForm(vars[c].typ);
    EvalInlineForm(I, m, vars[c].typ);
    EvalOfReplace(I, m, vars[target].typ, c, u);
    forall v | v in vars' ensures m'[v] == Eval(I, m', vars'[v].typ) {
      assert Refs(vars'[v].typ) <= m'.Keys;
      EvalAgrees(I, m, m', vars'[v].typ);
    }
  }

  /** A meaning of the declarations after comes from one before. */
  lemma InlineExtends<D(!new)>(I: Meaning<D>, vars: Variables, c: string, target: string, m': map<string, D>)
    returns (m: map<string, D>)
    requires I.Sound() && c in vars && target in vars && c != target && UsedOnlyIn(vars, c, target) && Closed(vars)
    requires Models(I, Inline(vars, c, target), m')
    ensures Models(I, vars, m) && Restrict(m, vars.Keys - {c}) == m'
  {
    var vars' := Inline(vars, c, target);
    InlineClosed(vars, c, target);
    var u := InlineForm(vars[c].typ);
    assert Refs(vars[c].typ) <= m'.Keys;
    var d := Eval(I, m', vars[c].typ);
    m := m'[c := d];
    assert Restrict(m, vars.Keys - {c}) == m';
    EvalInlineForm(I, m, vars[c].typ);
    EvalAgrees(I, m, m', vars[c].typ);
    EvalOfReplace(I, m, vars[target].typ, c, u);
    forall v | v in vars ensures m[v] == Eval(I, m, vars[v].typ) {
      if v != c {
        EvalAgrees(I, m, m', vars'[v].typ);
      }
    }
  }

  // -------------------------------------------------------------------- every step

  /** The declarations mean the same, on what both declare. */
  ghost predicate SameMeaning<D(!new)>(I: Meaning<D>, before: Variables, after: Variables) {
    && after.Keys <= before.Keys
    && (forall m: map<string, D> :: Models(I, before, m) ==> Models(I, after, Restrict(m, after.Keys)))
    && (forall m: map<string, D> :: Models(I, after, m) ==> ComesFrom(I, before, after, m))
  }

  ghost predicate ComesFrom<D(!new)>(I: Meaning<D>, before: Variables, after: Variables, m: map<string, D>) {
    exists m0: map<string, D> :: Models(I, before, m0) && Restrict(m0, after.Keys) == m
  }

  lemma SameAsItself<D(!new)>(I: Meaning<D>, vars: Variables)
    ensures SameMeaning(I, vars, vars)
  {
    forall m: map<string, D> | Models(I, vars, m)
      ensures Models(I, vars, Restrict(m, vars.Keys)) && ComesFrom(I, vars, vars, m)
    {
      assert Restrict(m, vars.Keys) == m;
    }
  }

  lemma InlineKeepsMeaning<D(!new)>(I: Meaning<D>, before: Variables, vars: Variables, c: string, target: string)
    requires I.Sound() && c in vars && target in vars && c != target && UsedOnlyIn(vars, c, target) && Closed(vars)
    requires SameMeaning(I, before, vars)
    ensures SameMeaning(I, before, Inline(vars, c, target))
  {
    hide Models;
    var after := Inline(vars, c, target);
    InlineClosed(vars, c, target);
    forall m: map<string, D> | Models(I, before, m) ensures Models(I, after, Restrict(m, after.Keys)) {
      InlineRestricts(I, vars, c, target, Restrict(m, vars.Keys));
      assert Restrict(Restrict(m, vars.Keys), vars.Keys - {c}) == Restrict(m, after.Keys);
    }
    forall m: map<string, D> | Models(I, after, m) ensures ComesFrom(I, before, after, m) {
      var m1 := InlineExtends(I, vars, c, target, m);
      assert ComesFrom(I, before, vars, m1);
      var m0: map<string, D> :| Models(I, before, m0) && Restrict(m0, vars.Keys) == m1;
      assert Restrict(Restrict(m0, vars.Keys), vars.Keys - {c}) == Restrict(m0, after.Keys);
    }
  }

  function Users(vars: Variables, c: string): set<string> {
    set v | v in vars && c in Refs(vars[v].typ)
  }

  /** Declarations that one other uses, and that the rest of the code does not name. */
  ghost predicate IsCandidate(vars: Variables, imports: set<string>, c: string) {
    c in vars && |Users(vars, c)| == 1 && vars[c].name !in imports
  }

  /** The users of `c` found so far: among `done` all, and `current` if it was found to be one. */
  ghost function UsersIn(vars: Variables, done: set<string>, current: string, found: set<string>,
                         c: string): set<string> {
    (set v | v in done && v in vars && c in Refs(vars[v].typ)) + (if c in found then {current} else {})
  }

  ghost predicate UsersOk(vars: Variables, dependants: map<string, set<string>>, users: set<string>, c: string) {
    if c in dependants then c in vars && dependants[c] == users && users != {} else users == {}
  }

  ghost predicate UsersSoFar(vars: Variables, dependants: map<string, set<string>>, done: set<string>, current: string,
                             found: set<string>) {
    forall c: string :: UsersOk(vars, dependants, UsersIn(vars, done, current, found, c), c)
  }

  lemma UserAdded(vars: Variables, dependants: map<string, set<string>>, done: set<string>, current: string,
                  found: set<string>, c: string)
    requires UsersSoFar(vars, dependants, done, current, found)
    requires c in vars && c !in found && current !in done
    ensures c in dependants ==> dependants[c] != {} && current !in dependants[c]
    ensures UsersSoFar(vars, dependants[c := (if c in dependants then dependants[c] else {}) + {current}], done,
                       current, found + {c})
  {
    var more := dependants[c := (if c in dependants then dependants[c] else {}) + {current}];
    assert UsersOk(vars, dependants, UsersIn(vars, done, current, found, c), c);
    forall c': string ensures UsersOk(vars, more, UsersIn(vars, done, current, found + {c}, c'), c') {
      assert UsersOk(vars, dependants, UsersIn(vars, done, current, found, c'), c');
      if c' != c {
        assert UsersIn(vars, done, current, found + {c}, c') == UsersIn(vars, done, current, found, c');
      } else {
        assert UsersIn(vars, done, current, found + {c}, c) == UsersIn(vars, done, current, found, c) + {current};
      }
    }
  }

  /** One declaration more has been looked at. */
  lemma UsersDone(vars: Variables, dependants: map<string, set<string>>, done: set<string>, current: string)
    requires current in vars && UsersSoFar(vars, dependants, done, current, Refs(vars[current].typ))
    ensures UsersSoFar(vars, dependants, done + {current}, "", {})
  {
    forall c: string ensures UsersOk(vars, dependants, UsersIn(vars, done + {current}, "", {}, c), c) {
      assert UsersOk(vars, dependants, UsersIn(vars, done, current, Refs(vars[current].typ), c), c);
      assert UsersIn(vars, done + {current}, "", {}, c) == UsersIn(vars, done, current, Refs(vars[current].typ), c);
    }
  }

  lemma UsersBegin(vars: Variables, dependants: map<string, set<string>>, done: set<string>, current: string)
    requires UsersSoFar(vars, dependants, done, "", {})
    ensures UsersSoFar(vars, dependants, done, current, {})
  {
    forall c: string ensures UsersOk(vars, dependants, UsersIn(vars, done, current, {}, c), c) {
      assert UsersOk(vars, dependants, UsersIn(vars, done, "", {}, c), c);
    }
  }

  lemma UsersNone(vars: Variables)
    ensures UsersSoFar(vars, map[], {}, "", {})
  {
  }

  ghost predicate SingleUses(vars: Variables, imports: set<string>, dependants: map<string, set<string>>,
                             toRemove: set<string>) {
    && toRemove <= dependants.Keys <= vars.Keys
    && forall c :: c in dependants && c in vars ==>
       (c in toRemove <==> |dependants[c]| == 1 && vars[c].name !in imports)
  }

  lemma AddedUser(users: set<string>, v: string)
    requires users != {} && v !in users
    ensures |users + {v}| > 1
  {
  }

  lemma NoSingleUses(vars: Variables, imports: set<string>)
    ensures SingleUses(vars, imports, map[], {})
  {
  }

  /** A first user makes a declaration one to inline, unless it is imported; a second unmakes it. */
  lemma UseAdded(vars: Variables, imports: set<string>, dependants: map<string, set<string>>, toRemove: set<string>,
                 v: string, c: string)
    requires SingleUses(vars, imports, dependants, toRemove) && c in vars
    requires c in dependants ==> dependants[c] != {} && v !in dependants[c]
    ensures c in dependants ==> SingleUses(vars, imports, dependants[c := dependants[c] + {v}], toRemove - {c})
    ensures c !in dependants ==>
              SingleUses(vars, imports, dependants[c := {v}],
                         if vars[c].name in imports then toRemove else toRemove + {c})
  {
    if c in dependants {
      AddedUser(dependants[c], v);
    }
  }

  lemma UsersFound(vars: Variables, dependants: map<string, set<string>>, c: string)
    requires UsersSoFar(vars, dependants, vars.Keys, "", {}) && c in vars
    ensures if c in dependants then dependants[c] == Users(vars, c) else Users(vars, c) == {}
  {
    assert UsersOk(vars, dependants, UsersIn(vars, vars.Keys, "", {}, c), c);
    assert UsersIn(vars, vars.Keys, "", {}, c) == Users(vars, c);
  }

  /** What the removals have done so far, `vars0` being the declarations at the start. */
  ghost predicate Removing(vars0: Variables, vars: Variables, candidates: set<string>, toRemove: set<string>) {
    && toRemove <= candidates <= vars0.Keys
    && vars.Keys == vars0.Keys - (candidates - toRemove)
    && (forall v :: v in vars ==> v in vars0 && vars[v].name == vars0[v].name)
    && (forall c :: c in candidates && c !in toRemove ==> Refs(vars0[c].typ) !! toRemove)
    && (forall v :: v in vars ==> Refs(vars[v].typ) * toRemove <= Refs(vars0[v].typ))
  }

  /** The one declaration that used `c` still stands, and it alone uses `c`. */
  lemma RemoveStep(vars0: Variables, vars: Variables, candidates: set<string>, toRemove: set<string>, c: string,
                   target: string)
    requires Removing(vars0, vars, candidates, toRemove) && c in toRemove
    requires Users(vars0, c) == {target} && Refs(vars0[c].typ) !! toRemove
    ensures c in vars && target in vars && target != c && UsedOnlyIn(vars, c, target)
    ensures Removing(vars0, Inline(vars, c, target), candidates, toRemove - {c})
  {
    assert target in Users(vars0, c);
    assert target in vars;
    forall v | v in vars && c in Refs(vars[v].typ) ensures v == target {
      assert c in Refs(vars[v].typ) * toRemove;
      assert v in Users(vars0, c);
    }
    RefsOfReplace(vars[target].typ, c, InlineForm(vars[c].typ));
    var vars', toRemove' := Inline(vars, c, target), toRemove - {c};
    assert vars'.Keys == vars.Keys - {c};
    forall v | v in vars' ensures Refs(vars'[v].typ) * toRemove' <= Refs(vars0[v].typ) {
      assert Refs(vars[c].typ) * toRemove <= Refs(vars0[c].typ);
    }
  }

  /** Something that `c` uses is also left over. */
  ghost predicate Stuck(vars: Variables, imports: set<string>, kept: set<string>, c: string) {
    c in vars && exists d :: d in Refs(vars[c].typ) && d in kept && IsCandidate(vars, imports, d)
  }

  lemma CandidatesFound(vars: Variables, imports: set<string>, dependants: map<string, set<string>>,
                        toRemove: set<string>)
    requires UsersSoFar(vars, dependants, vars.Keys, "", {}) && SingleUses(vars, imports, dependants, toRemove)
    ensures forall c :: c in toRemove <==> IsCandidate(vars, imports, c)
    ensures forall c :: c in toRemove ==> c in dependants && dependants[c] == Users(vars, c)
  {
    forall c | c in vars ensures c in toRemove <==> IsCandidate(vars, imports, c)
      ensures c in toRemove ==> dependants[c] == Users(vars, c)
    {
      UsersFound(vars, dependants, c);
    }
  }

  lemma OnlyElement(s: set<string>, x: string)
    requires |s| == 1 && x in s
    ensures s == {x}
  {
    assert |s - {x}| == 0;
  }

  class Declarations {
    var variables: Variables

    /** Who uses what, and which declarations to inline. */
    method FindSingleUses(commonTypeImports: set<string>)
      returns (dependants: map<string, set<string>>, toRemove: set<string>)
      requires Closed(variables)
      ensures UsersSoFar(variables, dependants, variables.Keys, "", {})
      ensures SingleUses(variables, commonTypeImports, dependants, toRemove)
    {
      hide UsersSoFar, SingleUses;
      dependants, toRemove := map[], {};
      UsersNone(variables);
      NoSingleUses(variables, commonTypeImports);
      var left := variables.Keys;
      assert variables.Keys - left == {};
      while |left| != 0
        invariant left <= variables.Keys
        invariant UsersSoFar(variables, dependants, variables.Keys - left, "", {})
        invariant SingleUses(variables, commonTypeImports, dependants, toRemove)
      {
        ghost var some := SomeElement(left);
        var checksum :| checksum in left;
        dependants, toRemove := CountUses(commonTypeImports, checksum, variables.Keys - left, dependants, toRemove);
        assert variables.Keys - left + {checksum} == variables.Keys - (left - {checksum});
        left := left - {checksum};
      }
      assert variables.Keys - left == variables.Keys;
    }

    method CountUses(commonTypeImports: set<string>, checksum: string, ghost done: set<string>,
                     dependants0: map<string, set<string>>, toRemove0: set<string>)
      returns (dependants: map<string, set<string>>, toRemove: set<string>)
      requires Closed(variables) && checksum in variables && checksum !in done
      requires UsersSoFar(variables, dependants0, done, "", {})
               && SingleUses(variables, commonTypeImports, dependants0, toRemove0)
      ensures UsersSoFar(variables, dependants, done + {checksum}, "", {})
      ensures SingleUses(variables, commonTypeImports, dependants, toRemove)
    {
      hide UsersSoFar, SingleUses;
      dependants, toRemove := dependants0, toRemove0;
      var iDependencies := Refs(variables[checksum].typ);
      var left := iDependencies;
      UsersBegin(variables, dependants, done, checksum);
      assert iDependencies - left == {};
      while |left| != 0
        invariant left <= iDependencies
        invariant UsersSoFar(variables, dependants, done, checksum, iDependencies - left)
        invariant SingleUses(variables, commonTypeImports, dependants, toRemove)
      {
        ghost var some := SomeElement(left);
        var dependency :| dependency in left;
        UserAdded(variables, dependants, done, checksum, iDependencies - left, dependency);
        UseAdded(variables, commonTypeImports, dependants, toRemove, checksum, dependency);
        assert iDependencies - left + {dependency} == iDependencies - (left - {dependency});
        if dependency in dependants {
          dependants := dependants[dependency := dependants[dependency] + {checksum}];
          toRemove := toRemove - {dependency};
        } else {
          dependants := dependants[dependency := {checksum}];
          if variables[dependency].name !in commonTypeImports {
            toRemove := toRemove + {dependency};
          }
        }
        left := left - {dependency};
      }
      assert iDependencies - left == iDependencies;
      UsersDone(variables, dependants, done, checksum);
    }

    /**
     * Inlines declarations that are used once. What is left means the same, and declarations used
     * once are left only on cycles of these or where they lead to one.
     */
    method OptimizeVariables<D(!new)>(commonTypeImports: set<string>, ghost I: Meaning<D>)
      requires Closed(variables) && I.Sound()
      modifies this
      ensures variables.Keys <= old(variables).Keys && Closed(variables)
      ensures forall c :: c in variables ==> variables[c].name == old(variables)[c].name
      ensures forall c :: c in old(variables) && c !in variables ==> IsCandidate(old(variables), commonTypeImports, c)
      ensures forall c :: c in variables && IsCandidate(old(variables), commonTypeImports, c) ==>
                Stuck(old(variables), commonTypeImports, variables.Keys, c)
      ensures SameMeaning(I, old(variables), variables)
      ensures AnonymousOnTop(old(variables)) ==> AnonymousOnTop(variables)
    {
      hide Closed, SameMeaning, UsersSoFar, SingleUses, Removing, IsCandidate, Users, AnonymousOnTop;
      ghost var vars0 := variables;
      var dependants, toRemove := FindSingleUses(commonTypeImports);
      var dependencies := map c | c in variables :: Refs(variables[c].typ);
      SameAsItself(I, vars0);
      CandidatesFound(vars0, commonTypeImports, dependants, toRemove);
      RemovingNone(vars0, commonTypeImports, toRemove);
      ghost var candidates := toRemove;
      while true
        invariant toRemove <= candidates <= dependencies.Keys && Removing(vars0, variables, candidates, toRemove)
        invariant Closed(variables) && SameMeaning(I, vars0, variables)
        invariant AnonymousOnTop(vars0) ==> AnonymousOnTop(variables)
        decreases |toRemove|
      {
        var nonDependants := set item | item in toRemove && dependencies[item] !! toRemove;
        if |nonDependants| == 0 {
          StuckRest(vars0, variables, commonTypeImports, candidates, toRemove);
          break;
        }
        ghost var before := toRemove;
        toRemove := InlineAll(I, vars0, candidates, nonDependants, dependants, toRemove);
        Fewer(toRemove, before);
      }
    }

    /** One round: inlines declarations that use nothing that is yet to be inlined. */
    method InlineAll<D(!new)>(ghost I: Meaning<D>, ghost vars0: Variables, ghost candidates: set<string>,
                              nonDependants: set<string>, dependants: map<string, set<string>>,
                              toRemove0: set<string>)
      returns (toRemove: set<string>)
      requires I.Sound() && Closed(variables) && SameMeaning(I, vars0, variables)
      requires Removing(vars0, variables, candidates, toRemove0) && toRemove0 <= candidates
      requires forall c :: c in nonDependants ==> c in toRemove0 && c in vars0 && Refs(vars0[c].typ) !! toRemove0
      requires forall c :: c in candidates ==>
               c in dependants && dependants[c] == Users(vars0, c) && |dependants[c]| == 1
      modifies this
      ensures Closed(variables) && SameMeaning(I, vars0, variables)
      ensures Removing(vars0, variables, candidates, toRemove) && toRemove == toRemove0 - nonDependants
      ensures AnonymousOnTop(old(variables)) ==> AnonymousOnTop(variables)
    {
      hide Closed, SameMeaning, Removing, Users, UsedOnlyIn, Inline, AnonymousOnTop;
      toRemove := toRemove0;
      var left := nonDependants;
      while |left| != 0
        invariant left <= nonDependants && toRemove == toRemove0 - (nonDependants - left)
        invariant Closed(variables) && SameMeaning(I, vars0, variables)
        invariant Removing(vars0, variables, candidates, toRemove)
        invariant AnonymousOnTop(old(variables)) ==> AnonymousOnTop(variables)
      {
        ghost var some := SomeElement(left);
        var checksum :| checksum in left;
        ghost var user := SomeElement(dependants[checksum]);
        var target :| target in dependants[checksum];
        OnlyElement(dependants[checksum], target);
        RemoveStep(vars0, variables, candidates, toRemove, checksum, target);
        InlineKeepsMeaning(I, vars0, variables, checksum, target);
        InlineClosed(variables, checksum, target);
        if AnonymousOnTop(variables) {
          InlineKeepsNames(variables, checksum, target);
        }
        variables := Inline(variables, checksum, target);
        toRemove := toRemove - {checksum};
        left := left - {checksum};
      }
    }
  }

  lemma RemovingNone(vars: Variables, imports: set<string>, toRemove: set<string>)
    requires forall c :: c in toRemove ==> IsCandidate(vars, imports, c)
    ensures toRemove <= vars.Keys && Removing(vars, vars, toRemove, toRemove)
    ensures forall c :: c in toRemove ==> |Users(vars, c)| == 1
  {
    assert vars.Keys - (toRemove - toRemove) == vars.Keys;
  }

  lemma Fewer(a: set<string>, b: set<string>)
    requires a < b
    ensures |a| < |b|
  {
    var x :| x in b && x !in a;
    SubsetIsSmaller(a, b - {x});
  }

  lemma StuckRest(vars0: Variables, vars: Variables, imports: set<string>, candidates: set<string>,
                  toRemove: set<string>)
    requires Removing(vars0, vars, candidates, toRemove)
    requires forall c :: c in candidates <==> IsCandidate(vars0, imports, c)
    requires forall c :: c in toRemove ==> c in vars0 && !(Refs(vars0[c].typ) !! toRemove)
    ensures vars.Keys <= vars0.Keys && forall c :: c in vars ==> vars[c].name == vars0[c].name
    ensures forall c :: c in vars0 && c !in vars ==> IsCandidate(vars0, imports, c)
    ensures forall c :: c in vars && IsCandidate(vars0, imports, c) ==> Stuck(vars0, imports, vars.Keys, c)
  {
    forall c | c in vars && IsCandidate(vars0, imports, c) ensures Stuck(vars0, imports, vars.Keys, c) {
      assert c in toRemove;
      var d :| d in Refs(vars0[c].typ) && d in toRemove;
      assert d in vars.Keys && IsCandidate(vars0, imports, d);
    }
  }
}
