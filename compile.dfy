/**
 * Route-table construction of the Router constructor (router.js:82-181), stated
 * declaratively over the values the constructor reads.  The imperative constructor
 * in module Dispatcher is proved to compute exactly `Compile`.
 */
module RouteTable {
  import opened Wrappers
  import opened Pattern

  /** The `parts` field of a route entry: undefined, a string, or any other defined value (kept as is). */
  datatype PartsField = Absent | Text(s: string) | Items(xs: seq<string>)

  /** A route entry as written in a config: a bare pattern string, or an object with optional fields. */
  datatype RawEntry =
    | Shorthand(pattern: string)
    | Entry(isDefault: Option<bool>, route: string, name: Option<string>, parts: PartsField)

  /** A route entry after normalisation and `parts` derivation. */
  datatype RouteDef = RouteDef(route: string, name: string, isDefault: bool, parts: seq<string>)

  /** What the constructor reads from one config group: is `controller` defined, and `routes`. */
  datatype GroupValue = GroupValue(hasController: bool, routes: Option<seq<RawEntry>>)

  /** A route of the table together with the index of the config group that declares it. */
  datatype Decl = Decl(group: nat, def: RouteDef)

  /** One call of `this.route(route, name, callback)`, the callback bound to (group, route). */
  datatype Registration = Registration(pattern: string, name: string, group: nat, route: RouteDef)

  /** The errors the constructor throws, in the order it can meet them. */
  datatype ConfigError =
    | NotAnArray
    | NoController
    | NoRoutes
    | DuplicateDefault(first: RouteDef, second: RouteDef)
    | MissingDefault

  const CatchAllPattern: string := "*anything"
  const CatchAllName: string := "default"

  // ---------------------------------------------------------------------
  // Entry normalisation (router.js:113-126) and parts (router.js:139-154)
  // ---------------------------------------------------------------------

  /** The shorthand becomes `{route: s}`; `lodash.defaults` then fills only the fields that are undefined. */
  function Normalize(e: RawEntry): (n: RawEntry)
    ensures n.Entry? && n.isDefault.Some? && n.name.Some?
    ensures e.Shorthand? ==> n == Entry(Some(false), e.pattern, Some(e.pattern), Absent)
    ensures e.Entry? ==> n.route == e.route && n.parts == e.parts
    ensures e.Entry? ==> n.isDefault == (if e.isDefault.Some? then e.isDefault else Some(false))
    ensures e.Entry? ==> n.name == (if e.name.Some? then e.name else Some(e.route))
  {
    match e
    case Shorthand(s) => Entry(Some(false), s, Some(s), Absent)
    case Entry(d, r, nm, p) => Entry(Some(d.GetOr(false)), r, Some(nm.GetOr(r)), p)
  }

  /** The parts of an entry: derived from the pattern, split from a string, or kept. */
  function PartsOf(route: string, p: PartsField): seq<string>
  {
    match p
    case Absent => DeriveParts(route)
    case Text(s) => SplitParts(s)
    case Items(xs) => xs
  }

  /** A raw entry as the constructor leaves it: normalised, with `parts` set. */
  function Define(e: RawEntry): RouteDef
  {
    var n := Normalize(e);
    RouteDef(n.route, n.name.value, n.isDefault == Some(true), PartsOf(n.route, n.parts))
  }

  // ---------------------------------------------------------------------
  // The declarative table
  // ---------------------------------------------------------------------

  predicate WellFormed(g: GroupValue)
  {
    g.hasController && g.routes.Some?
  }

  function RoutesOf(g: GroupValue): seq<RawEntry>
  {
    g.routes.GetOr([])
  }

  /** The index of the first group the constructor rejects, or |gs| when there is none. */
  function FirstMalformed(gs: seq<GroupValue>): (k: nat)
    ensures k <= |gs|
    ensures forall i :: 0 <= i < k ==> WellFormed(gs[i])
    ensures k < |gs| ==> !WellFormed(gs[k])
  {
    if |gs| == 0 || !WellFormed(gs[0]) then 0 else 1 + FirstMalformed(gs[1..])
  }

  /** The defined routes of one group, each tagged with the group's index. */
  function BindAll(g: nat, es: seq<RawEntry>): seq<Decl>
  {
    seq(|es|, k requires 0 <= k < |es| => Decl(g, Define(es[k])))
  }

  /** Every route of the groups, in declaration order. */
  function Declared(gs: seq<GroupValue>): seq<Decl>
  {
    if |gs| == 0 then [] else Declared(gs[..|gs| - 1]) + BindAll(|gs| - 1, RoutesOf(gs[|gs| - 1]))
  }

  /** The routes marked `isDefault === true`, in declaration order. */
  function Defaults(ds: seq<Decl>): seq<Decl>
  {
    if |ds| == 0 then []
    else Defaults(ds[..|ds| - 1]) + (if ds[|ds| - 1].def.isDefault then [ds[|ds| - 1]] else [])
  }

  function Register(d: Decl): Registration
  {
    Registration(d.def.route, d.def.name, d.group, d.def)
  }

  /** The catch-all registration, bound to the default route's group and route. */
  function CatchAll(d: Decl): Registration
  {
    Registration(CatchAllPattern, CatchAllName, d.group, d.def)
  }

  /** The registrations of `ds` in the order `unshift` leaves them: last declared first. */
  function Reversed(ds: seq<Decl>): seq<Registration>
  {
    seq(|ds|, k requires 0 <= k < |ds| => Register(ds[|ds| - 1 - k]))
  }

  /**
   * The outcome of the constructor.  Groups before the first malformed one are processed
   * entirely, so a second default among them is reported before the malformed group.
   */
  function Compile(cfg: Option<seq<GroupValue>>): Result<seq<Registration>, ConfigError>
  {
    match cfg
    case None => Err(NotAnArray)
    case Some(gs) =>
      var k := FirstMalformed(gs);
      var ds := Defaults(Declared(gs[..k]));
      if |ds| >= 2 then Err(DuplicateDefault(ds[0].def, ds[1].def))
      else if k < |gs| then Err(if gs[k].hasController then NoRoutes else NoController)
      else if |ds| == 0 then Err(MissingDefault)
      else Ok([CatchAll(ds[0])] + Reversed(Declared(gs)))
  }

  /** The number of routes the groups declare. */
  function RouteCount(gs: seq<GroupValue>): nat
  {
    if |gs| == 0 then 0 else RouteCount(gs[..|gs| - 1]) + |RoutesOf(gs[|gs| - 1])|
  }

  // ---------------------------------------------------------------------
  // Lemmas: normalisation and parts
  // ---------------------------------------------------------------------

  /** The shorthand means exactly the object with only `route` set. */
  lemma ShorthandIsBareEntry(s: string)
    ensures Define(Shorthand(s)) == Define(Entry(None, s, None, Absent))
    ensures Define(Shorthand(s)) == RouteDef(s, s, false, DeriveParts(s))
  {
  }

  /** Normalising twice changes nothing: defaults only fill undefined fields. */
  lemma NormalizeIdempotent(e: RawEntry)
    ensures Normalize(Normalize(e)) == Normalize(e)
  {
  }

  /** An entry is the default exactly when its `isDefault` is present and true. */
  lemma DefaultFlag(e: RawEntry)
    ensures Define(e).isDefault <==> e.Entry? && e.isDefault == Some(true)
  {
  }

  /** The three ways `parts` is set (router.js:140-154). */
  lemma DefineParts(e: RawEntry)
    ensures var n := Normalize(e);
      n.parts.Absent? ==>
        forall k :: 0 <= k < |Define(e).parts| ==>
          Define(e).parts[k] != "" && '/' !in Define(e).parts[k] && NoSplat(Define(e).parts[k])
    ensures e.Entry? && e.parts.Text? ==> |Define(e).parts| >= 1 && Join(Define(e).parts) == e.parts.s
    ensures e.Entry? && e.parts.Items? ==> Define(e).parts == e.parts.xs
  {
    var n := Normalize(e);
    if n.parts.Absent? {
      DerivedPartsShape(n.route);
    }
    if e.Entry? && e.parts.Text? {
      JoinSplit(e.parts.s);
    }
  }

  // ---------------------------------------------------------------------
  // Lemmas: structure of Declared and Defaults
  // ---------------------------------------------------------------------

  lemma BindAllAppend(g: nat, es: seq<RawEntry>, j: nat)
    requires j < |es|
    ensures BindAll(g, es[..j + 1]) == BindAll(g, es[..j]) + [Decl(g, Define(es[j]))]
  {
  }

  lemma DeclaredAppend(gs: seq<GroupValue>, i: nat)
    requires i < |gs|
    ensures Declared(gs[..i + 1]) == Declared(gs[..i]) + BindAll(i, RoutesOf(gs[i]))
  {
    assert gs[..i + 1][..i] == gs[..i];
  }

  /** Collecting the defaults distributes over concatenation, so it keeps declaration order. */
  lemma {:induction false} DefaultsAppend(a: seq<Decl>, b: seq<Decl>)
    ensures Defaults(a + b) == Defaults(a) + Defaults(b)
    decreases |b|
  {
    if |b| == 0 {
      assert a + b == a;
    } else {
      var b' := b[..|b| - 1];
      assert (a + b)[..|a + b| - 1] == a + b';
      DefaultsAppend(a, b');
    }
  }

  /** A route is among the defaults exactly when it is declared and flagged as default. */
  lemma {:induction false} DefaultsExact(ds: seq<Decl>)
    ensures forall d :: d in Defaults(ds) <==> d in ds && d.def.isDefault
    ensures |Defaults(ds)| <= |ds|
    decreases |ds|
  {
    if |ds| > 0 {
      var ds' := ds[..|ds| - 1];
      DefaultsExact(ds');
      assert ds == ds' + [ds[|ds| - 1]];
    }
  }

  /** A prefix of the routes has a prefix of the defaults. */
  lemma DefaultsPrefix(a: seq<Decl>, b: seq<Decl>)
    ensures Defaults(a) <= Defaults(a + b)
  {
    DefaultsAppend(a, b);
  }

  /** Processing more groups only extends the declared routes. */
  lemma {:induction false} DeclaredPrefix(gs: seq<GroupValue>, i: nat, k: nat)
    requires i <= k <= |gs|
    ensures Declared(gs[..i]) <= Declared(gs[..k])
    decreases k - i
  {
    if i < k {
      DeclaredPrefix(gs, i + 1, k);
      DeclaredAppend(gs, i);
    }
  }

  /** Every declared route carries the index of a group that declares it. */
  lemma {:induction false} DeclaredOrigin(gs: seq<GroupValue>)
    ensures |Declared(gs)| == RouteCount(gs)
    ensures forall k :: 0 <= k < |Declared(gs)| ==>
      Declared(gs)[k].group < |gs| && Declared(gs)[k].def in DefinedRoutes(RoutesOf(gs[Declared(gs)[k].group]))
    decreases |gs|
  {
    if |gs| > 0 {
      var n := |gs| - 1;
      var gs' := gs[..n];
      DeclaredOrigin(gs');
      var a := Declared(gs');
      var b := BindAll(n, RoutesOf(gs[n]));
      assert Declared(gs) == a + b;
      forall k | 0 <= k < |Declared(gs)|
        ensures Declared(gs)[k].group < |gs| && Declared(gs)[k].def in DefinedRoutes(RoutesOf(gs[Declared(gs)[k].group]))
      {
        if k < |a| {
          assert Declared(gs)[k] == a[k];
          assert gs'[a[k].group] == gs[a[k].group];
        } else {
          var j := k - |a|;
          assert Declared(gs)[k] == b[j];
          assert b[j].def == DefinedRoutes(RoutesOf(gs[n]))[j];
        }
      }
    }
  }

  /** The routes of a group after normalisation, in order. */
  function DefinedRoutes(es: seq<RawEntry>): seq<RouteDef>
  {
    seq(|es|, k requires 0 <= k < |es| => Define(es[k]))
  }

  lemma ReversedAt(ds: seq<Decl>, k: nat)
    requires k < |ds|
    ensures Reversed(ds)[k] == Register(ds[|ds| - 1 - k])
  {
  }

  /** `unshift` of one more registration. */
  lemma ReversedAppend(ds: seq<Decl>, d: Decl)
    ensures Reversed(ds + [d]) == [Register(d)] + Reversed(ds)
  {
    var l := Reversed(ds + [d]);
    var r := [Register(d)] + Reversed(ds);
    assert |l| == |r|;
    forall k | 0 <= k < |l|
      ensures l[k] == r[k]
    {
      if k > 0 {
        assert (ds + [d])[|ds| - k] == ds[|ds| - 1 - (k - 1)];
      }
    }
  }

  // ---------------------------------------------------------------------
  // Lemmas: the outcome of construction
  // ---------------------------------------------------------------------

  /** Construction succeeds exactly when every group is complete and exactly one route is the default. */
  lemma CompileOk(gs: seq<GroupValue>)
    ensures Compile(Some(gs)).Ok? <==>
      (forall i :: 0 <= i < |gs| ==> WellFormed(gs[i])) && |Defaults(Declared(gs))| == 1
  {
    var k := FirstMalformed(gs);
    if k < |gs| {
      assert !WellFormed(gs[k]);
    } else {
      assert gs[..k] == gs;
    }
  }

  /** What success means in terms of the groups. */
  lemma CompileSuccess(gs: seq<GroupValue>)
    requires Compile(Some(gs)).Ok?
    ensures FirstMalformed(gs) == |gs| && |Defaults(Declared(gs))| == 1
    ensures Compile(Some(gs)).value == [CatchAll(Defaults(Declared(gs))[0])] + Reversed(Declared(gs))
  {
    assert gs[..FirstMalformed(gs)] == gs;
  }

  /** What a duplicate default means in terms of the well-formed prefix. */
  lemma CompileDuplicate(gs: seq<GroupValue>, a: RouteDef, b: RouteDef)
    requires Compile(Some(gs)) == Err(DuplicateDefault(a, b))
    ensures var ds := Defaults(Declared(gs[..FirstMalformed(gs)])); |ds| >= 2 && a == ds[0].def && b == ds[1].def
  {
  }

  /** The shape of a table built from routes `ds` with a unique default. */
  lemma TableShape(ds: seq<Decl>, t: seq<Registration>)
    requires |Defaults(ds)| == 1 && t == [CatchAll(Defaults(ds)[0])] + Reversed(ds)
    ensures |t| == |ds| + 1
    ensures Decl(t[0].group, t[0].route) in ds && t[0].route.isDefault
    ensures forall d :: d in ds && d.def.isDefault ==> d == Decl(t[0].group, t[0].route)
    ensures forall k :: 0 < k < |t| ==> t[k] == Register(ds[|t| - 1 - k])
  {
    DefaultsExact(ds);
    assert Defaults(ds)[0] in Defaults(ds);
    forall d | d in ds && d.def.isDefault
      ensures d == Decl(t[0].group, t[0].route)
    {
      assert d in Defaults(ds);
    }
    forall k | 0 < k < |t|
      ensures t[k] == Register(ds[|t| - 1 - k])
    {
      assert t[k] == Reversed(ds)[k - 1];
      ReversedAt(ds, k - 1);
    }
  }

  /** Every registration of such a table is bound to one of the groups that declared the routes. */
  lemma TableGroups(ds: seq<Decl>, t: seq<Registration>, n: nat)
    requires |Defaults(ds)| == 1 && t == [CatchAll(Defaults(ds)[0])] + Reversed(ds)
    requires forall i :: 0 <= i < |ds| ==> ds[i].group < n
    ensures forall k :: 0 <= k < |t| ==> t[k].group < n
  {
    DefaultsExact(ds);
    assert Defaults(ds)[0] in Defaults(ds);
    forall k | 0 <= k < |t|
      ensures t[k].group < n
    {
      if k > 0 {
        assert t[k] == Reversed(ds)[k - 1];
        ReversedAt(ds, k - 1);
      }
    }
  }

  /**
   * On success the table has one registration per declared route plus the catch-all; the
   * catch-all comes first and is bound to the unique default; the declared routes follow
   * in reverse declaration order, each bound to its own group and route (router.js:157-178).
   */
  lemma CompileTable(gs: seq<GroupValue>, t: seq<Registration>)
    requires Compile(Some(gs)) == Ok(t)
    ensures |t| == RouteCount(gs) + 1
    ensures t[0].pattern == CatchAllPattern && t[0].name == CatchAllName
    ensures t[0].route.isDefault && Decl(t[0].group, t[0].route) in Declared(gs)
    ensures forall d :: d in Declared(gs) && d.def.isDefault ==> d == Decl(t[0].group, t[0].route)
    ensures forall k :: 0 < k < |t| ==>
      var d := Declared(gs)[|t| - 1 - k];
      t[k] == Registration(d.def.route, d.def.name, d.group, d.def)
    ensures forall k :: 0 <= k < |t| ==> t[k].group < |gs|
  {
    CompileSuccess(gs);
    TableShape(Declared(gs), t);
    DeclaredOrigin(gs);
    TableGroups(Declared(gs), t, |gs|);
  }

  /**
   * A duplicate default names the first two defaults in declaration order: the first one
   * found is the one retained (router.js:129-137).
   */
  lemma DuplicateReportsFirstTwo(gs: seq<GroupValue>, a: RouteDef, b: RouteDef)
    requires Compile(Some(gs)) == Err(DuplicateDefault(a, b))
    ensures |Defaults(Declared(gs))| >= 2
    ensures a == Defaults(Declared(gs))[0].def && b == Defaults(Declared(gs))[1].def
  {
    CompileDuplicate(gs, a, b);
    var k := FirstMalformed(gs);
    DeclaredPrefix(gs, k, |gs|);
    assert gs[..|gs|] == gs;
    DefaultsOfPrefix(Declared(gs[..k]), Declared(gs));
  }

  lemma DefaultsOfPrefix(p: seq<Decl>, ds: seq<Decl>)
    requires p <= ds
    ensures Defaults(p) <= Defaults(ds)
  {
    assert p + ds[|p|..] == ds;
    DefaultsPrefix(p, ds[|p|..]);
  }

  /**
   * A default met while one is already recorded is reported with the recorded one first;
   * the groups after it are never looked at.
   */
  lemma SecondDefaultReported(gs: seq<GroupValue>, i: nat, j: nat)
    requires i < |gs| && forall m :: 0 <= m <= i ==> WellFormed(gs[m])
    requires j < |RoutesOf(gs[i])|
    requires |Defaults(Declared(gs[..i]) + BindAll(i, RoutesOf(gs[i])[..j]))| == 1
    requires Define(RoutesOf(gs[i])[j]).isDefault
    ensures Compile(Some(gs)) == Err(DuplicateDefault(
      Defaults(Declared(gs[..i]) + BindAll(i, RoutesOf(gs[i])[..j]))[0].def, Define(RoutesOf(gs[i])[j])))
  {
    var es := RoutesOf(gs[i]);
    var p := Declared(gs[..i]) + BindAll(i, es[..j]);
    var d := Decl(i, Define(es[j]));
    var k := FirstMalformed(gs);
    assert k > i;
    RouteBeforeMalformed(gs, i, j, k);
    SecondDefaultOf(p, d, Declared(gs[..k]));
  }

  /** The routes up to and including route j of group i come before the first malformed group k. */
  lemma RouteBeforeMalformed(gs: seq<GroupValue>, i: nat, j: nat, k: nat)
    requires i < k <= |gs| && j < |RoutesOf(gs[i])|
    ensures Declared(gs[..i]) + BindAll(i, RoutesOf(gs[i])[..j]) + [Decl(i, Define(RoutesOf(gs[i])[j]))] <= Declared(gs[..k])
  {
    var es := RoutesOf(gs[i]);
    BindAllAppend(i, es, j);
    assert es[..|es|] == es;
    assert BindAll(i, es[..j + 1]) <= BindAll(i, es);
    DeclaredAppend(gs, i);
    DeclaredPrefix(gs, i + 1, k);
  }

  /** A default after routes with exactly one default is the second default of any extension. */
  lemma SecondDefaultOf(p: seq<Decl>, d: Decl, q: seq<Decl>)
    requires |Defaults(p)| == 1 && d.def.isDefault && p + [d] <= q
    ensures |Defaults(q)| >= 2 && Defaults(q)[0] == Defaults(p)[0] && Defaults(q)[1] == d
  {
    var pd := p + [d];
    DefaultsAppend(p, [d]);
    DefaultsSingle(d);
    assert Defaults(pd) == Defaults(p) + [d];
    DefaultsOfPrefix(pd, q);
    assert Defaults(q)[0] == Defaults(pd)[0] && Defaults(q)[1] == Defaults(pd)[1];
  }

  lemma DefaultsSingle(d: Decl)
    ensures Defaults([d]) == if d.def.isDefault then [d] else []
  {
    assert [d][..0] == [];
  }

  /** Once every group has been processed, the outcome depends only on the number of defaults. */
  lemma AllGroupsProcessed(gs: seq<GroupValue>)
    requires forall i :: 0 <= i < |gs| ==> WellFormed(gs[i])
    requires |Defaults(Declared(gs))| <= 1
    ensures |Defaults(Declared(gs))| == 0 ==> Compile(Some(gs)) == Err(MissingDefault)
    ensures |Defaults(Declared(gs))| == 1 ==>
      Compile(Some(gs)) == Ok([CatchAll(Defaults(Declared(gs))[0])] + Reversed(Declared(gs)))
  {
    assert gs[..|gs|] == gs;
  }

  /** A rejected group is the first incomplete one, and no duplicate default precedes it. */
  lemma MalformedReported(gs: seq<GroupValue>, i: nat)
    requires i < |gs| && !WellFormed(gs[i]) && forall j :: 0 <= j < i ==> WellFormed(gs[j])
    requires |Defaults(Declared(gs[..i]))| <= 1
    ensures Compile(Some(gs)) == Err(if gs[i].hasController then NoRoutes else NoController)
  {
  }
}
