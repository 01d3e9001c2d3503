# RouterEx routing core in Dafny

This project models the router defined in `router.js`. That router sits on top of
Backbone's router. It is built from an array of *config groups*. Each group names a
controller and lists its routes. The model covers two things the router does:

1. **Construction** (`new Router(configs)`).
   - Validate the groups.
   - Normalise every route entry. A bare pattern string becomes `{route: s}`, then
     missing fields get their defaults.
   - Allow at most one default route.
   - Derive each route's `parts`: the static segments left once the optional groups
     `(…)`, the named parameters `:name` and the splats `*name` are removed.
   - Build the registration list. It is built by prepending, so the list ends in reverse
     declaration order, and the catch-all `*anything` route goes at the front. Each
     entry is then handed to Backbone's `route`.
2. **Navigation** (`handleRouteFromConfig` and `startController`).
   - Shape the parameters, including the unconditional pop and the splice of `parts`
     at index 2.
   - Load a controller named by module.
   - Tear down the previous controller when it is a different one.
   - Instantiate the group's controller once.
   - Call `dispatch`.

The modules:

- `Wrappers` (`wrappers.dfy`): `Option` and `Result`.
- `Pattern` (`pattern.dfy`): the three global regular-expression replacements, written
  as scanners over the exact token shapes they match, plus `split('/')`, the non-empty
  filter, and the derivation of `parts`.
- `RouteTable` (`compile.dfy`): entry normalisation, and `Compile`, a declarative
  statement of what construction produces (the table, or the first error the
  constructor throws).
- `Dispatcher` (`router.dfy`): the classes `Controller`, `ConfigGroup` and `Router`.
  - `Router.New` runs the constructor's nested loops and is proved to compute `Compile`.
  - `HandleRoute`, `StartController` and `OnLoaded` change the controller cell and the
    group's `controller` field in place.
  - `removeView` and `dispatch` calls are recorded in a call log. `require` requests are
    recorded in a load log.

Behaviour of the code worth noting:

- **No default route is an error at construction.** If no route is flagged as the
  default, `defaultConfigRoute` is still `undefined` at router.js:170, and reading
  `.config` from it throws. Construction therefore fails with `MissingDefault`.
- **The pop always fires.** The comment at router.js:212 says the last parameter is
  removed when it is undefined or null. The check at router.js:213 reads
  `parameters[parameters.length]`, one past the end, which is always undefined, so the
  last element is popped whatever it holds. `splice(2, 0, parts)` at router.js:258 then
  puts `parts` third, and `dispatch` receives `(config, route, parts, captured values
  but the last)`. With no captured value the pop removes `route`, and the splice,
  clamped to the array's length, makes the arguments `(config, parts)`.
- **Validation order.** Groups are checked one at a time. A second default found in an
  earlier group is reported before a later group with no `controller` or no `routes`
  (`RouteTable.Compile`).

## Model

| member | source | states |
|---|---|---|
| `Pattern.WordRun` | router.js:17-18 | the length of the maximal `\w` run at the start of the text: every character before it is a word character and the next one is not |
| `Pattern.CloseAt` | router.js:16 | where the lazy `.*?\)` stops: the first `)` with no line terminator before it; if there is none, every `)` has a line terminator before it |
| `Pattern.StripOptional` | router.js:141 | the first replacement: every optional group `(…)` that `CloseAt` closes is cut out, scanning left to right; the result is never longer. Described by `StripOptionalClean`, `StripOptionalIdentity` and `StripOptionalIdempotent` |
| `Pattern.StripOptionalClean` | router.js:141 | after the first replacement, no `(` is followed by a `)` that the group pattern could reach |
| `Pattern.StripOptionalIdentity` | router.js:141 | text with no reachable group is left unchanged by the first replacement |
| `Pattern.StripOptionalIdempotent` | router.js:141 | applying the first replacement twice gives the same as applying it once |
| `Pattern.NoCloseKept` | router.js:16 | removing groups does not create a reachable `)` where there was none |
| `Pattern.StripNamed` | router.js:142-144 | the second replacement: each `:word` token is removed, each `(?:word` token is kept, every other character is copied; never longer. Described by `StripNamedClean`, `KeptGroupToken`, `NoNamedUnchanged` and `NamedLocal` |
| `Pattern.StripNamedClean` | router.js:142-144 | after the second replacement, every remaining `:word` is directly preceded by `(?`: no bare `:word` token survives |
| `Pattern.KeptGroupToken` | router.js:142-144 | a `(?:word` token is left in place whole by the second replacement, which then goes on scanning after it |
| `Pattern.NoNamedUnchanged` | router.js:142-144 | text without `:` is left unchanged by the second replacement |
| `Pattern.StripSplat` | router.js:145 | the third replacement: each `*word` token is removed and every other character copied; never longer. Described by `StripSplatClean`, `StripSplatIdentity` and `SplatLocal` |
| `Pattern.StripSplatClean` | router.js:145 | after the third replacement, no `*` is followed by a word character |
| `Pattern.StripSplatIdentity` | router.js:145 | text with no `*word` is left unchanged by the third replacement |
| `Pattern.StripSplatIdempotent` | router.js:145 | applying the third replacement twice gives the same as applying it once |
| `Pattern.NamedLocal` | router.js:142-144 | the second replacement acts on a `/`-free prefix independently of what follows a `/` |
| `Pattern.SplatLocal` | router.js:145 | the third replacement acts on a `/`-free prefix independently of what follows a `/` |
| `Pattern.ParamsAtSlash` | router.js:142-145 | the second and third replacements commute with cutting the text at its first `/` |
| `Pattern.SplitStripParams` | router.js:142-147 | splitting after the second and third replacements equals applying them to each segment of the split |
| `Pattern.Split` | router.js:147 | `split('/')` yields at least one piece, and no piece contains `/` |
| `Pattern.JoinSplit` | router.js:153 | joining the pieces of a split with `/` gives the text back |
| `Pattern.SplitJoin` | router.js:153 | splitting the join of `/`-free pieces gives the pieces back |
| `Pattern.SplitAppend` | router.js:147 | splitting `a + "/" + b` gives the pieces of `a` followed by the pieces of `b` |
| `Pattern.DropEmpty` | router.js:147-149 | the filter keeps no empty string, keeps only pieces of its input, and never lengthens it |
| `Pattern.DropEmptyExact` | router.js:147-149 | a string survives the filter exactly when it is in the input and non-empty |
| `Pattern.DropEmptyAllFull` | router.js:147-149 | the filter changes nothing when every piece is non-empty |
| `Pattern.DeriveParts` | router.js:140-149 | the parts of a route without `parts`: the three replacements, `split('/')`, and the non-empty filter, in that order. Described by `DerivePartsBySegment`, `DerivedPartsShape`, `PlainRouteParts`, `TrailingParameterAddsNoPart` and `OptionalGroupAddsNoPart` |
| `Pattern.DerivePartsBySegment` | router.js:141-149 | derived parts = group removal, then split, then the named and splat passes on each segment, then the filter |
| `Pattern.DerivedPartsShape` | router.js:140-150 | every derived part is non-empty, contains no `/`, and contains no `*word` |
| `Pattern.PlainRouteParts` | router.js:140-150 | a pattern without `(`, `:` or `*` has as parts its own non-empty segments |
| `Pattern.TrailingParameterAddsNoPart` | router.js:56 | appending a `/:word` or `/*word` segment to a group-free pattern leaves its parts unchanged (the documented `bundle/edit/nuff/:id` case) |
| `Pattern.OptionalGroupAddsNoPart` | router.js:141 | an optional group `(…)` in a group-free pattern contributes nothing: the parts are those of the pattern without it |
| `Pattern.SplitParts` | router.js:153 | parts given as a string are its `split('/')`, empty segments included. Described by `SuppliedPartsRoundTrip` and `ExampleSuppliedParts` |
| `Pattern.SuppliedPartsRoundTrip` | router.js:153 | parts supplied as a string are split verbatim: joining them gives the string back |
| `Pattern.ExampleSuppliedParts` | router.js:57 | `"x/y/z"` splits to `[x, y, z]`, and `"x//:id"` keeps its empty segment and its `:id` untouched |
| `RouteTable.Normalize` | router.js:113-126 | a string becomes an entry with only `route` set; `isDefault` and `name` are filled only when absent (`false` and the route); present fields and `parts` are kept |
| `RouteTable.ShorthandIsBareEntry` | router.js:113-118 | a bare string means the same route as `{route: s}`: named after itself, not default, with derived parts |
| `RouteTable.NormalizeIdempotent` | router.js:120-126 | filling defaults a second time changes nothing |
| `RouteTable.DefaultFlag` | router.js:129 | an entry is the default exactly when its `isDefault` is present and `true` |
| `RouteTable.PartsOf` | router.js:139-154 | the three cases of `parts`: undefined is derived with `DeriveParts`, a string is split with `SplitParts`, anything else is kept. Described by `DefineParts` |
| `RouteTable.Define` | router.js:113-154 | one entry as the constructor leaves it: normalised, flagged default exactly when `isDefault === true`, with its `parts`. Described by `ShorthandIsBareEntry`, `DefaultFlag` and `DefineParts` |
| `RouteTable.DefineParts` | router.js:139-154 | undefined `parts` are derived (non-empty, `/`-free); string `parts` are split so that they join back to the string; other defined `parts` are kept as given |
| `RouteTable.FirstMalformed` | router.js:100-108 | the index of the first group without `controller` or without `routes`; every earlier group has both |
| `RouteTable.DefaultsAppend` | router.js:128-137 | collecting defaults distributes over concatenation: the defaults of `a + b` are those of `a` followed by those of `b`, so their order and multiplicity follow the declaration |
| `RouteTable.DefaultsExact` | router.js:128-137 | membership: a route is among the defaults collected exactly when it is declared and flagged default; there are no more of them than routes |
| `RouteTable.DeclaredOrigin` | router.js:100-163 | one declared route per route entry, each tagged with a group that declares it |
| `RouteTable.Compile` | router.js:85-171 | the outcome of construction: `NotAnArray`, a duplicate default among the groups before the first incomplete one, that incomplete group, `MissingDefault`, or the catch-all followed by every route in reverse declaration order. Described by `CompileOk`, `CompileTable`, `DuplicateReportsFirstTwo`, `MalformedReported`, `SecondDefaultReported` and `AllGroupsProcessed`, and computed by `Dispatcher.Router.New` |
| `RouteTable.CompileOk` | router.js:85-171 | construction succeeds exactly when every group has `controller` and `routes` and exactly one route is the default |
| `RouteTable.CompileTable` | router.js:157-178 | on success: N routes give N+1 registrations; the first is `*anything`/`default`, bound to the unique default route and its group; then the routes in reverse declaration order, each bound to its own group and route |
| `RouteTable.DuplicateReportsFirstTwo` | router.js:129-137 | a duplicate-default error names the first two defaults in declaration order; the first one found is the one kept |
| `RouteTable.MalformedReported` | router.js:102-108 | the first group without `controller` (or else without `routes`) is reported when no second default comes before it |
| `RouteTable.SecondDefaultReported` | router.js:129-132 | meeting a default while one is recorded ends construction with that pair, whatever the later groups hold |
| `RouteTable.AllGroupsProcessed` | router.js:166-171 | after the last group: no default fails with `MissingDefault`; one default gives the catch-all followed by the reversed routes |
| `Dispatcher.ScannedStep` | router.js:128-161 | one more route that is not a second default keeps the loop state in step: list prepended, default recorded |
| `Dispatcher.Router.New` | router.js:82-181 | a non-array fails first; otherwise the outcome is exactly `Compile` of the groups; on success the new router holds that table bound to the group objects, with an empty controller cell |
| `Dispatcher.Router.DeclareRoutes` | router.js:110-163 | the inner loop over one group's routes: either the duplicate-default error `Compile` reports, or the state after all of that group's routes |
| `Dispatcher.Router.Finish` | router.js:166-178 | with no default, `MissingDefault`; otherwise the catch-all goes in front and the whole list is registered in order |
| `Dispatcher.Router.RegisterAll` | router.js:174-178 | one `this.route` call per table entry, in table order, each bound to its group object |
| `Dispatcher.Router.Route` | router.js:176 | `this.route` appends one registration and changes nothing else |
| `Dispatcher.Router.Init` | router.js:190-195 | a new router has an empty controller cell and nothing registered, called or loaded |
| `Dispatcher.Parameters` | router.js:210-215 | the callback's `arguments`, `(config, route, captured…)`, with the last element removed by the pop. Described by `ParametersShape` |
| `Dispatcher.ParametersShape` | router.js:210-215 | the callback's parameters are `(config, route, captured…)` with the last element always popped: `(config)` when nothing was captured |
| `Dispatcher.InsertAt` | router.js:258 | `splice(i, 0, x)` lengthens the array by one |
| `Dispatcher.InsertAtRemove` | router.js:258 | the element inserted sits at the index clamped to the length, and removing it gives the array back |
| `Dispatcher.DispatchArgs` | router.js:258-261 | the parameters with `route.parts` spliced in at index 2, as `dispatch` receives them. Described by `DispatchArguments` and `InsertAtRemove` |
| `Dispatcher.DispatchArguments` | router.js:210-261 | `dispatch` receives `(config, route, parts, captured values but the last)`, or `(config, parts)` when nothing was captured |
| `Dispatcher.Teardown` | router.js:246-249 | the `removeView` call made before dispatch: on the current controller, with the target config and route, when there is one and it is not the group's `controller`. Described by `TeardownWhen` and used in `Router.StartController` |
| `Dispatcher.TeardownWhen` | router.js:246-249 | at most one `removeView`: none when the cell is empty or already holds the group's instance; one, on the old controller with the target config and route, when the group holds a name, a constructor, nothing, or an instance other than the current controller |
| `Dispatcher.Router.StartController` | router.js:244-266 | teardown as above, then the cell is cleared; an instance is reused and a constructor is instantiated once and stored in the group; the cell then holds that instance, which receives `dispatch` with parts at index 2; anything else throws after the teardown and leaves the cell empty |
| `Dispatcher.Router.HandleRoute` | router.js:207-234 | a group whose controller is a module name only records a load request carrying the shaped parameters; any other group runs `StartController` at once |
| `Dispatcher.Router.OnLoaded` | router.js:221-226 | the loaded value overwrites the group's `controller`, then `StartController` runs with the parameters saved at navigation time |
| `Dispatcher.Router.Fire` | router.js:160 | invoking a registered callback navigates with the group and route it was bound to |
| `Dispatcher.Revisit` | router.js:246-255 | two navigations to a constructor-declared group create one instance, dispatch to it twice, and tear nothing down in between |
| `Dispatcher.LazyLoad` | router.js:218-226 | a module-named group first records a load; when a constructor arrives it is instantiated, stored in the group and dispatched to with the arguments of the original navigation |

## Left out

- The UMD/AMD wrapper, the environment checks (router.js:3-15) and `compatibility(Router)` (router.js:268): module plumbing, and a call into code that is not part of this model.
- `console.debug` logging: it has no effect on behaviour.
- Backbone itself. `BackboneRouter.call`, URL matching and history are not modelled. `this.route` is an append to `registered`. `removeView` and `dispatch` are entries in the call log. `instanceof BackboneController` is the `Instance` case of `ControllerRef`.
- The error message text: errors are datatype values, and the duplicate-default error carries the two routes its message names.
- requirejs: `require` is a recorded request, completed by `OnLoaded` with whatever the loader returns. Interleaved navigations and cancellation are not modelled. The model also does not stop one request from completing twice.
- In-place mutation of route entries. `lodash.defaults` and `route.parts =` write into the caller's entry objects; the model computes the normalised entry as a value. Processing an entry a second time (an entry shared between groups) computes the same fields, so what the router registers and dispatches is unchanged. What the caller sees in its own objects afterwards is not modelled.
- JavaScript values outside the modelled types:
  - `configs` is either an array of groups or not an array;
  - a group's `controller` is a module name, a constructor, an instance, or undefined; `null` and other values are not modelled;
  - `routes` is a list of strings and objects;
  - `isDefault` is a boolean when present (anything but `true` is not the default);
  - `route` is a string;
  - `parts` is undefined, a string, or another value kept as is, modelled as a list of strings;
  - captured parameters are strings or null.
- A config group that is not an object (`configs[i].controller` throws a TypeError): not modelled.
- `Dispatcher.Router.New` is a static method returning `Result`, not a constructor that throws; a router object is produced only on success.
