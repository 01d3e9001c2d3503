/**
 * The Router object (router.js:82-266): construction of the route table by nested loops,
 * and the navigation state machine of `handleRouteFromConfig` / `startController`.
 *
 * Backbone's `this.route` is modelled as appending to `registered`; controller methods
 * (`removeView`, `dispatch`) are recorded in the call log `calls`; the asynchronous
 * `require([...], cb)` is a recorded request in `loads`, completed later by `OnLoaded`.
 */
module Dispatcher {
  import opened Wrappers
  import opened RouteTable

  /** Identifies a controller constructor. */
  type CtorId = nat

  /** A controller instance (`instanceof BackboneController`), made by constructor `kind`. */
  class Controller {
    const kind: CtorId

    constructor (kind: CtorId)
      ensures this.kind == kind
    {
      this.kind := kind;
    }
  }

  /** What a group's `controller` holds: a module name, a constructor, or an instance. */
  datatype ControllerRef = Name(moduleName: string) | Ctor(id: CtorId) | Instance(c: Controller)

  /** A config group; `controller` is rewritten in place on load and on instantiation. */
  class ConfigGroup {
    var controller: Option<ControllerRef>
    var routes: Option<seq<RawEntry>>

    constructor (controller: Option<ControllerRef>, routes: Option<seq<RawEntry>>)
      ensures this.controller == controller && this.routes == routes
    {
      this.controller := controller;
      this.routes := routes;
    }
  }

  /** One element of the `parameters` array handed to `dispatch`. */
  datatype Arg =
    | GroupArg(group: ConfigGroup)
    | RouteArg(route: RouteDef)
    | PartsArg(parts: seq<string>)
    | Captured(value: Option<string>)

  /** A call made on a controller. */
  datatype Call =
    | RemoveView(on: Controller, group: ConfigGroup, route: RouteDef)
    | Dispatch(on: Controller, args: seq<Arg>)

  /** A pending `require` of a controller module, with the navigation waiting for it. */
  datatype Load = Load(moduleName: string, group: ConfigGroup, route: RouteDef, parameters: seq<Arg>)

  /** `new config.controller()` on something that is not a constructor throws. */
  datatype NavError = NotConstructible

  /** A route registered with Backbone, its callback bound to (group, route). */
  datatype Handler = Handler(pattern: string, name: string, group: ConfigGroup, route: RouteDef)

  // ---------------------------------------------------------------------
  // Parameter shaping (router.js:210-215, 258)
  // ---------------------------------------------------------------------

  function Captures(args: seq<Option<string>>): seq<Arg>
  {
    seq(|args|, i requires 0 <= i < |args| => Captured(args[i]))
  }

  /**
   * The `arguments` of the bound callback, (config, route, captured...), after the pop:
   * `parameters[parameters.length]` is always undefined, so the last element always goes.
   */
  function Parameters(config: ConfigGroup, route: RouteDef, args: seq<Option<string>>): seq<Arg>
  {
    var all := [GroupArg(config), RouteArg(route)] + Captures(args);
    all[..|all| - 1]
  }

  /** Array `splice(i, 0, x)`: an index past the end inserts at the end. */
  function InsertAt<T>(xs: seq<T>, i: nat, x: T): (r: seq<T>)
    ensures |r| == |xs| + 1
  {
    var j := if i <= |xs| then i else |xs|;
    xs[..j] + [x] + xs[j..]
  }

  /** The arguments `dispatch` receives. */
  function DispatchArgs(config: ConfigGroup, route: RouteDef, args: seq<Option<string>>): seq<Arg>
  {
    InsertAt(Parameters(config, route, args), 2, PartsArg(route.parts))
  }

  /** The previous controller is torn down when there is one and it is not the group's. */
  predicate NeedsTeardown(prev: Option<Controller>, target: Option<ControllerRef>)
  {
    prev.Some? && target != Some(Instance(prev.value))
  }

  /** The `removeView` call of the teardown, if any: on the old controller, with the new config and route. */
  function Teardown(prev: Option<Controller>, target: Option<ControllerRef>, config: ConfigGroup, route: RouteDef): seq<Call>
  {
    if NeedsTeardown(prev, target) then [RemoveView(prev.value, config, route)] else []
  }

  /** The callback's own arguments with the last captured value dropped. */
  lemma ParametersShape(config: ConfigGroup, route: RouteDef, args: seq<Option<string>>)
    ensures |Parameters(config, route, args)| == |args| + 1
    ensures |args| == 0 ==> Parameters(config, route, args) == [GroupArg(config)]
    ensures |args| > 0 ==>
      Parameters(config, route, args) == [GroupArg(config), RouteArg(route)] + Captures(args[..|args| - 1])
  {
    if |args| > 0 {
      var all := [GroupArg(config), RouteArg(route)] + Captures(args);
      assert all[..|all| - 1] == [GroupArg(config), RouteArg(route)] + Captures(args[..|args| - 1]);
    }
  }

  /** Removing what `splice` inserted gives the array back. */
  lemma InsertAtRemove<T>(xs: seq<T>, i: nat, x: T)
    ensures var j := if i <= |xs| then i else |xs|;
      InsertAt(xs, i, x)[j] == x && InsertAt(xs, i, x)[..j] + InsertAt(xs, i, x)[j + 1..] == xs
  {
    var j := if i <= |xs| then i else |xs|;
    var r := InsertAt(xs, i, x);
    assert r[..j] == xs[..j];
    assert r[j + 1..] == xs[j..];
  }

  /**
   * `dispatch` receives (config, route, parts, captured values but the last); with no
   * captured value the pop takes `route` away and the parts land second (router.js:210-261).
   */
  lemma DispatchArguments(config: ConfigGroup, route: RouteDef, args: seq<Option<string>>)
    ensures |args| > 0 ==>
      DispatchArgs(config, route, args) ==
        [GroupArg(config), RouteArg(route), PartsArg(route.parts)] + Captures(args[..|args| - 1])
    ensures |args| == 0 ==> DispatchArgs(config, route, args) == [GroupArg(config), PartsArg(route.parts)]
  {
    ParametersShape(config, route, args);
    var p := Parameters(config, route, args);
    if |args| > 0 {
      var rest := Captures(args[..|args| - 1]);
      assert p[..2] == [GroupArg(config), RouteArg(route)];
      assert p[2..] == rest;
    } else {
      assert p[..1] == p && p[1..] == [];
    }
  }

  /** Teardown happens exactly when the current controller is not the group's controller. */
  lemma TeardownWhen(prev: Option<Controller>, target: Option<ControllerRef>, config: ConfigGroup, route: RouteDef)
    ensures |Teardown(prev, target, config, route)| <= 1
    ensures prev.None? ==> Teardown(prev, target, config, route) == []
    ensures prev.Some? && target == Some(Instance(prev.value)) ==> Teardown(prev, target, config, route) == []
    ensures prev.Some? && (target.None? || !target.value.Instance?) ==>
      Teardown(prev, target, config, route) == [RemoveView(prev.value, config, route)]
    ensures prev.Some? && target.Some? && target.value.Instance? && target.value.c != prev.value ==>
      Teardown(prev, target, config, route) == [RemoveView(prev.value, config, route)]
  {
  }

  /** The routes one group of the table is bound to. */
  predicate Binds(hs: seq<Handler>, configs: seq<ConfigGroup>, t: seq<Registration>)
  {
    |hs| == |t| &&
    forall k :: 0 <= k < |t| ==>
      t[k].group < |configs| && hs[k] == Handler(t[k].pattern, t[k].name, configs[t[k].group], t[k].route)
  }

  /** What the constructor reads from the config groups. */
  function Snapshot(configs: seq<ConfigGroup>): seq<GroupValue>
    reads configs
  {
    seq(|configs|, i requires 0 <= i < |configs| reads configs =>
      GroupValue(configs[i].controller.Some?, configs[i].routes))
  }

  /** The constructor's state after the routes `decl`: the `unshift`ed list and the default found, if any. */
  predicate Scanned(decl: seq<Decl>, history: seq<Registration>, dflt: Option<Decl>)
  {
    history == Reversed(decl) && |Defaults(decl)| <= 1 &&
    dflt == (if |Defaults(decl)| == 1 then Some(Defaults(decl)[0]) else None)
  }

  /** One more route that is not a second default keeps the constructor's state in step. */
  lemma ScannedStep(decl: seq<Decl>, history: seq<Registration>, dflt: Option<Decl>, d: Decl)
    requires Scanned(decl, history, dflt) && !(d.def.isDefault && dflt.Some?)
    ensures Scanned(decl + [d], [Register(d)] + history, if d.def.isDefault then Some(d) else dflt)
  {
    DefaultsAppend(decl, [d]);
    assert Defaults([d]) == (if d.def.isDefault then [d] else []) by { assert [d][..0] == []; }
    ReversedAppend(decl, d);
  }

  class Router {
    /** The current controller, `null` at first (router.js:190-195). */
    var controller: Option<Controller>
    /** The `this.route` calls made, in order. */
    var registered: seq<Handler>
    /** The `removeView` and `dispatch` calls made, in order. */
    var calls: seq<Call>
    /** The `require` requests made, in order. */
    var loads: seq<Load>

    constructor Init()
      ensures controller == None && registered == [] && calls == [] && loads == []
    {
      controller := None;
      registered := [];
      calls := [];
      loads := [];
    }

    /** Backbone's `this.route(route, name, callback)`. */
    method Route(pattern: string, name: string, group: ConfigGroup, route: RouteDef)
      modifies this
      ensures registered == old(registered) + [Handler(pattern, name, group, route)]
      ensures controller == old(controller) && calls == old(calls) && loads == old(loads)
    {
      registered := registered + [Handler(pattern, name, group, route)];
    }

    /**
     * `new Router(configs)`: `configs` is None when it is not an array.  The outcome is
     * exactly `Compile` of what the constructor reads; on success Backbone has been given
     * the table, each route bound to its own group object.
     */
    static method New(configs: Option<seq<ConfigGroup>>) returns (res: Result<Router, ConfigError>)
      ensures configs.None? ==> res == Err(NotAnArray)
      ensures configs.Some? ==>
        var c := Compile(Some(Snapshot(configs.value)));
        (res.Ok? <==> c.Ok?) &&
        (res.Err? ==> res.error == c.error) &&
        (res.Ok? ==>
           fresh(res.value) && Binds(res.value.registered, configs.value, c.value) &&
           res.value.controller == None && res.value.calls == [] && res.value.loads == [])
    {
      if configs.None? {
        return Err(NotAnArray);
      }
      var cs := configs.value;
      ghost var gs := Snapshot(cs);
      var history: seq<Registration> := [];
      var dflt: Option<Decl> := None;
      var failure: Option<ConfigError> := None;
      var i := 0;
      while i < |cs| && failure.None?
        invariant 0 <= i <= |cs|
        invariant failure.Some? ==> Compile(Some(gs)) == Err(failure.value)
        invariant failure.None? ==>
          (forall m :: 0 <= m < i ==> WellFormed(gs[m])) && Scanned(Declared(gs[..i]), history, dflt)
        decreases |cs| - i, if failure.None? then 1 else 0
      {
        var config := cs[i];
        if config.controller.None? || config.routes.None? {
          MalformedReported(gs, i);
          failure := Some(if config.controller.None? then NoController else NoRoutes);
        } else {
          history, dflt, failure := DeclareRoutes(gs, i, config.routes.value, history, dflt);
          i := i + 1;
        }
      }
      if failure.Some? {
        res := Err(failure.value);
      } else {
        assert gs[..i] == gs;
        res := Finish(gs, cs, history, dflt);
      }
      assert Snapshot(cs) == gs;
    }

    /**
     * The end of the constructor (router.js:166-178): without a default the dereference at
     * router.js:170 throws; otherwise `unshift` the catch-all and register the whole list.
     */
    static method Finish(ghost gs: seq<GroupValue>, cs: seq<ConfigGroup>, history: seq<Registration>, dflt: Option<Decl>)
      returns (res: Result<Router, ConfigError>)
      requires |gs| == |cs| && forall m :: 0 <= m < |gs| ==> WellFormed(gs[m])
      requires Scanned(Declared(gs), history, dflt)
      ensures (res.Ok? <==> Compile(Some(gs)).Ok?) && (res.Err? ==> res.error == Compile(Some(gs)).error)
      ensures res.Ok? ==>
        fresh(res.value) && Binds(res.value.registered, cs, Compile(Some(gs)).value) &&
        res.value.controller == None && res.value.calls == [] && res.value.loads == []
    {
      AllGroupsProcessed(gs);
      if dflt.None? {
        return Err(MissingDefault);
      }
      var table := [CatchAll(dflt.value)] + history;
      CompileTable(gs, table);
      var r := new Router.Init();
      r.RegisterAll(table, cs);
      return Ok(r);
    }

    /**
     * The inner loop of the constructor over one group's routes (router.js:110-163):
     * normalise each entry, check for a second default, and `unshift` its registration.
     */
    static method DeclareRoutes(ghost gs: seq<GroupValue>, i: nat, routes: seq<RawEntry>,
                                history0: seq<Registration>, dflt0: Option<Decl>)
      returns (history: seq<Registration>, dflt: Option<Decl>, failure: Option<ConfigError>)
      requires i < |gs| && (forall m :: 0 <= m <= i ==> WellFormed(gs[m])) && routes == RoutesOf(gs[i])
      requires Scanned(Declared(gs[..i]), history0, dflt0)
      ensures failure.Some? ==> Compile(Some(gs)) == Err(failure.value)
      ensures failure.None? ==> Scanned(Declared(gs[..i + 1]), history, dflt)
    {
      ghost var before := Declared(gs[..i]);
      ghost var decl := before;
      history, dflt := history0, dflt0;
      var j := 0;
      while j < |routes|
        invariant 0 <= j <= |routes|
        invariant decl == before + BindAll(i, routes[..j])
        invariant Scanned(decl, history, dflt)
      {
        var route := Define(routes[j]);
        var d := Decl(i, route);
        if route.isDefault && dflt.Some? {
          SecondDefaultReported(gs, i, j);
          return history, dflt, Some(DuplicateDefault(dflt.value.def, route));
        }
        ScannedStep(decl, history, dflt, d);
        BindAllAppend(i, routes, j);
        history := [Register(d)] + history;
        if route.isDefault {
          dflt := Some(d);
        }
        decl := decl + [d];
        j := j + 1;
      }
      assert routes[..j] == routes;
      DeclaredAppend(gs, i);
      return history, dflt, None;
    }

    /** The `forEach` over the table (router.js:175-178): one `this.route` call per registration. */
    method RegisterAll(table: seq<Registration>, cs: seq<ConfigGroup>)
      requires registered == []
      requires forall k :: 0 <= k < |table| ==> table[k].group < |cs|
      modifies this
      ensures Binds(registered, cs, table)
      ensures controller == old(controller) && calls == old(calls) && loads == old(loads)
    {
      var k := 0;
      while k < |table|
        invariant 0 <= k <= |table|
        invariant controller == old(controller) && calls == old(calls) && loads == old(loads)
        invariant Binds(registered, cs, table[..k])
      {
        var e := table[k];
        Route(e.pattern, e.name, cs[e.group], e.route);
        k := k + 1;
      }
      assert table[..k] == table;
    }

    /**
     * `startController` (router.js:244-266): tear down a different current controller,
     * instantiate the group's controller unless it is an instance, make it current, insert
     * the parts at index 2 and dispatch.
     */
    method StartController(config: ConfigGroup, route: RouteDef, parameters: seq<Arg>) returns (err: Option<NavError>)
      modifies this, config
      ensures Started(this, config, old(config.controller), route, parameters, err)
    {
      if controller.Some? && config.controller != Some(Instance(controller.value)) {
        calls := calls + [RemoveView(controller.value, config, route)];
        controller := None;
      }
      var c: Controller;
      match config.controller {
        case Some(Instance(existing)) =>
          c := existing;
        case Some(Ctor(k)) =>
          c := new Controller(k);
          config.controller := Some(Instance(c));
        case _ =>
          return Some(NotConstructible);
      }
      controller := Some(c);
      calls := calls + [Dispatch(c, InsertAt(parameters, 2, PartsArg(route.parts)))];
      return None;
    }

    /**
     * `handleRouteFromConfig` (router.js:207-234): shape the parameters, then request the
     * module when the controller is a name, or start the controller at once.
     */
    method HandleRoute(config: ConfigGroup, route: RouteDef, args: seq<Option<string>>) returns (err: Option<NavError>)
      modifies this, config
      ensures Handled(this, config, route, args, err)
    {
      var parameters := Parameters(config, route, args);
      if config.controller.Some? && config.controller.value.Name? {
        loads := loads + [Load(config.controller.value.moduleName, config, route, parameters)];
        return None;
      }
      err := StartController(config, route, parameters);
    }

    /** The `require` callback (router.js:223-226): store the loaded value, then start it. */
    method OnLoaded(k: nat, value: ControllerRef) returns (err: Option<NavError>)
      requires k < |loads|
      modifies this, loads[k].group
      ensures Started(this, old(loads[k]).group, Some(value), old(loads[k]).route, old(loads[k]).parameters, err)
    {
      var l := loads[k];
      l.group.controller := Some(value);
      err := StartController(l.group, l.route, l.parameters);
    }

    /** Backbone invoking the callback of registration `k` with the captured values. */
    method Fire(k: nat, args: seq<Option<string>>) returns (err: Option<NavError>)
      requires k < |registered|
      modifies this, registered[k].group
      ensures Handled(this, old(registered[k]).group, old(registered[k]).route, args, err)
    {
      var h := registered[k];
      err := HandleRoute(h.group, h.route, args);
    }
  }

  /**
   * One run of `startController` from the controller reference `target`: the teardown call,
   * then, when `target` can be instantiated, the (new or reused) instance becomes current and
   * receives `dispatch`; otherwise the navigation fails after the teardown.
   */
  twostate predicate Started(r: Router, config: ConfigGroup, target: Option<ControllerRef>, route: RouteDef,
                             parameters: seq<Arg>, new err: Option<NavError>)
    reads r, config
  {
    var torn := Teardown(old(r.controller), target, config, route);
    var args := InsertAt(parameters, 2, PartsArg(route.parts));
    r.registered == old(r.registered) && r.loads == old(r.loads) && config.routes == old(config.routes) &&
    match target
    case Some(Instance(c)) =>
      err == None && config.controller == target && r.controller == Some(c) &&
      r.calls == old(r.calls) + torn + [Dispatch(c, args)]
    case Some(Ctor(k)) =>
      err == None && r.controller.Some? && fresh(r.controller.value) && r.controller.value.kind == k &&
      config.controller == Some(Instance(r.controller.value)) &&
      r.calls == old(r.calls) + torn + [Dispatch(r.controller.value, args)]
    case _ =>
      err == Some(NotConstructible) && config.controller == target && r.controller == None &&
      r.calls == old(r.calls) + torn
  }

  /** One navigation: a load request for a named controller, otherwise a run of `startController`. */
  twostate predicate Handled(r: Router, config: ConfigGroup, route: RouteDef, args: seq<Option<string>>,
                             new err: Option<NavError>)
    reads r, config
  {
    var parameters := Parameters(config, route, args);
    match old(config.controller)
    case Some(Name(m)) =>
      err == None && r.loads == old(r.loads) + [Load(m, config, route, parameters)] &&
      r.controller == old(r.controller) && r.calls == old(r.calls) && r.registered == old(r.registered) &&
      config.controller == old(config.controller) && config.routes == old(config.routes)
    case _ => Started(r, config, old(config.controller), route, parameters, err)
  }

  // ---------------------------------------------------------------------
  // Navigation sequences
  // ---------------------------------------------------------------------

  /**
   * Two navigations to a group declared with a constructor: the group is instantiated once,
   * the instance receives both dispatches, and nothing is torn down in between.
   */
  method Revisit(r: Router, config: ConfigGroup, route: RouteDef, k: CtorId,
                 first: seq<Option<string>>, second: seq<Option<string>>)
    requires config.controller == Some(Ctor(k))
    modifies r, config
    ensures r.controller.Some? && fresh(r.controller.value) && r.controller.value.kind == k
    ensures config.controller == Some(Instance(r.controller.value))
    ensures r.calls == old(r.calls) + Teardown(old(r.controller), Some(Ctor(k)), config, route) +
      [Dispatch(r.controller.value, DispatchArgs(config, route, first)),
       Dispatch(r.controller.value, DispatchArgs(config, route, second))]
  {
    var e1 := r.HandleRoute(config, route, first);
    var e2 := r.HandleRoute(config, route, second);
  }

  /**
   * A group named by module: the navigation only requests the module; when it arrives as a
   * constructor, the group is instantiated and dispatched to with the parameters shaped at
   * navigation time.
   */
  method LazyLoad(r: Router, config: ConfigGroup, route: RouteDef, m: string, k: CtorId, args: seq<Option<string>>)
    returns (err: Option<NavError>)
    requires config.controller == Some(Name(m))
    modifies r, config
    ensures err == None
    ensures |r.loads| == |old(r.loads)| + 1 && r.loads[|old(r.loads)|] == Load(m, config, route, Parameters(config, route, args))
    ensures r.controller.Some? && fresh(r.controller.value) && r.controller.value.kind == k
    ensures config.controller == Some(Instance(r.controller.value))
    ensures r.calls == old(r.calls) + Teardown(old(r.controller), Some(Ctor(k)), config, route) +
      [Dispatch(r.controller.value, DispatchArgs(config, route, args))]
  {
    err := r.HandleRoute(config, route, args);
    err := r.OnLoaded(|r.loads| - 1, Ctor(k));
  }
}
