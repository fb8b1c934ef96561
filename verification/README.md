# Typed route builder: a Dafny model

This project models the runtime core of a small TypeScript route-builder
library (`src/index.ts`). `route(pattern)` turns a path pattern such as
`/users/:id` into a callable. Calling it with parameter values renders a
concrete path, e.g. `/users/1`. The callable also has a `.route` field that
holds the normalised pattern. `createRoutes(config)` applies `route` to every
string leaf of a nested configuration object and keeps the object's shape.

The modules follow the source's functions:

- `Text`: the JavaScript string and array primitives the code relies on.
  These are `split('/')`, `join('/')` and `filter(v => v !== '')`.
- `Values`: parameter values (a string, or an integer of magnitude at most
  2^53 - 1, `Number.MAX_SAFE_INTEGER`) and the text a template literal
  `${value}` gives them.
- `Parts`: `extractParts`, which splits a pattern into parameter and literal
  parts.
- `Validate`: `validateRoute`, which collapses runs of `/` and strips a
  trailing `/`. The model follows the two regular expressions exactly,
  including the rule that `.` does not match a line terminator.
- `Routes`: `route`, the call it returns (`exec`), and `parseValue`.
- `Namespace`: `createRoutes`, both as a map comprehension and as the
  source's `reduce` loop, run at every level, over a key order supplied as
  input.

Each operation is tied by a lemma to an inverse or an independent description:

- splitting and joining are inverse on the strings involved;
- extracting parts and joining them back are inverse;
- normalising is idempotent and keeps the non-empty pieces;
- a call equals an independent "substitute, then normalise" description;
- building routes and erasing them gives the configuration back.

## Model

| member | source | states |
|---|---|---|
| Text.Split | src/index.ts:49 | `split(sep)` as defined; its properties are stated by `Text.SplitCount`, `Text.SplitSepFree`, `Text.JoinSplit` and `Text.SplitAround` |
| Text.Join | src/index.ts:35 | `join(sep)` as defined; its properties are stated by `Text.JoinSplit`, `Text.SplitJoin` and `Text.JoinMembers` |
| Text.NonEmpty | src/index.ts:34 | `filter(value => value !== '')` as defined; its properties are stated by `Text.NonEmptyFilters` and `Text.NonEmptyAppend` |
| Text.SplitCount | src/index.ts:49 | `split` on a separator gives one piece more than the separator occurs in the string |
| Text.SplitSepFree | src/index.ts:49 | no piece returned by `split` contains the separator |
| Text.JoinSplit | src/index.ts:49 | joining the pieces of `split` with the same separator gives the string back |
| Text.SplitJoin | src/index.ts:35 | splitting a join of separator-free pieces gives exactly those pieces back |
| Text.SplitAround | src/index.ts:49 | splitting `a + sep + b` is splitting `a` followed by splitting `b` |
| Text.JoinMembers | src/index.ts:35 | every non-separator character of a join comes from one of the pieces |
| Text.NonEmptyFilters | src/index.ts:34 | the filter keeps exactly the non-empty texts; none of its outputs is empty; it never lengthens the list; it leaves a list with no empty text unchanged |
| Text.NonEmptyAppend | src/index.ts:34 | filtering distributes over concatenation, so order is kept |
| Values.NatDigits | src/index.ts:67 | a natural number's decimal text is non-empty digits with no leading zero, and it reads back as the number |
| Values.IntString | src/index.ts:67 | the decimal text of an integer, which is `${n}` for a safe integer, has a `-` exactly when `n` is negative, no `-0` and no leading zero, and it reads back as `n` |
| Values.ValueString | src/index.ts:67 | a string value renders as itself; a number (a safe integer) renders as exactly `Values.IntString` of it, the canonical decimal text (`1` gives `1`, `0` gives `0`), which reads back as the number |
| Values.IntTextIsPlain | src/index.ts:67 | integer text is non-empty and holds only `-` and digits, so it contains no `/` and no line terminator (applied in `Routes.ExecWithPlainValues`) |
| Parts.Classify | src/index.ts:50-51 | a piece becomes a parameter exactly when it starts with `:`; the part always stands for the piece it came from, with one leading colon removed |
| Parts.ExtractParts | src/index.ts:48-53 | `extractParts` as defined; its properties are stated by `Parts.ExtractPieces`, `Parts.ExtractRoundTrip`, `Parts.UnextractRoundTrip`, `Parts.ExtractClassifies` and `Parts.ExtractLeadingSlash` |
| Parts.ExtractPieces | src/index.ts:48-53 | the parts are the `/`-pieces of the pattern, in order |
| Parts.ExtractRoundTrip | src/index.ts:48-53 | there is one part per `/` plus one; every part is well formed; putting the colons back and joining with `/` gives the pattern |
| Parts.UnextractRoundTrip | src/index.ts:48-53 | conversely, any non-empty list of well-formed parts is what extraction makes of the pattern it stands for |
| Parts.ExtractClassifies | src/index.ts:49-51 | part `i` is a parameter iff piece `i` starts with `:`; a parameter's name is the piece minus that colon; a literal is the piece verbatim |
| Parts.ExtractLeadingSlash | src/index.ts:49-51 | a pattern that starts with `/` gives a leading empty literal part |
| Parts.ExtractLitParam | src/index.ts:48-53 | a pattern `/a/:n`, where `a` is a literal piece and `n` has no `/`, gives an empty literal, the literal `a` and the parameter `n` |
| Parts.ExtractUsersExample | src/index.ts:48-53 | `/users/:id` gives an empty literal, the literal `users` and the parameter `id` |
| Parts.ExtractColonExamples | src/index.ts:50 | only one colon goes (`::x` gives the parameter `:x`); an inner colon stays literal; `""` gives one empty literal |
| Validate.CollapseSlashes | src/index.ts:59 | `replace(/\/+/g, '/')` as defined; its properties are stated by `Validate.CollapseShape`, `Validate.CollapseWithoutDoubleSlash` and `Validate.CollapseKeepsSegments` |
| Validate.ValidateRoute | src/index.ts:55-60 | `validateRoute` as defined; its properties are stated by the `Validate.ValidateRoute…` lemmas below |
| Validate.CollapseShape | src/index.ts:59 | collapsing runs of `/` leaves no `//`, never lengthens the text, keeps the first character, and deletes nothing but `/` |
| Validate.StripTrailingSlash | src/index.ts:59 | the result is the input, or the input minus a trailing `/` that had something before it; a trailing `/` is kept on two or more characters only when a line terminator precedes it |
| Validate.ValidateRouteShape | src/index.ts:55-60 | `/` maps to `/`; the result has no `//`; a trailing `/` survives past the first character only after a line terminator; the result is no longer than the input; only `/` characters are removed; the first character is kept; no new character appears |
| Validate.ValidateRouteNoTrailingSlash | src/index.ts:59 | without line terminators, no result longer than `/` ends in `/` |
| Validate.CollapseWithoutDoubleSlash | src/index.ts:59 | collapsing leaves a text without `//` unchanged |
| Validate.ValidateRouteFixed | src/index.ts:55-60 | a text with no `//` and no trailing `/` (unless it is a single character) is its own normal form |
| Validate.ValidateRouteIdempotent | src/index.ts:55-60 | normalising twice is normalising once |
| Validate.SegmentsSkipSlash | src/index.ts:59 | replacing one `//` by `/` keeps the non-empty pieces |
| Validate.CollapseKeepsSegments | src/index.ts:59 | collapsing runs of `/` keeps the non-empty pieces |
| Validate.StripKeepsSegments | src/index.ts:59 | stripping a trailing `/` keeps the non-empty pieces |
| Validate.ValidateRouteKeepsSegments | src/index.ts:55-60 | the normalised pattern has the same non-empty pieces, in order, as the pattern |
| Validate.NormalFormIsSegments | src/index.ts:55-60 | a text in normal form is its leading `/` (if any) followed by its non-empty pieces joined with `/` |
| Validate.ValidateRouteIsSegments | src/index.ts:55-60 | without line terminators, the normalised pattern is the pattern's leading `/` (if any) followed by its non-empty pieces joined with `/` |
| Validate.ValidateRouteRootExamples | src/index.ts:56-57 | `/` stays `/`, and `//` collapses to `/` |
| Validate.ValidateRouteCollapseExample | src/index.ts:59 | `/a//b` normalises to `/a/b` |
| Validate.ValidateRouteTrailingExample | src/index.ts:59 | `/a/` normalises to `/a` |
| Validate.ValidateRouteParamExample | test/index.test.ts:16 | `/users/:id` is already normalised, so `.route` is `/users/:id` |
| Validate.ValidateRouteLineTerminatorExample | src/index.ts:59 | `/a\n/` keeps its trailing `/`, because `.` does not match `\n` |
| Routes.MakeRoute | src/index.ts:24-40 | every part of the route is well formed (no `/`, and no literal starting with `:`), and `.route` is the normalised pattern; that the parts stand for the whole pattern is `Parts.ExtractRoundTrip` |
| Routes.ParseValue | src/index.ts:62-68 | a missing name gives `undefined`; a string gives itself; a number (a safe integer) gives exactly its canonical decimal text `Values.IntString`, which reads back as it; the text is empty exactly when the value is the empty string |
| Routes.RenderPart | src/index.ts:28-33 | the `map` callback as defined: a literal renders as its text, a parameter through `parseValue`; its properties are stated by `Routes.ExecReadsOnlyParams`, `Routes.ExecPieces` and `Routes.ExecIsNormalisedSubstitution` |
| Routes.Exec | src/index.ts:26-37 | every rendered path starts with `/` |
| Routes.Call | src/index.ts:26-37 | the call as defined, with or without an argument: with one it renders the path; without one it throws when the route's parts include a parameter and otherwise renders as `{}` does. The pattern-level statements are `Routes.CallWithoutArgument` and `Routes.CallWithoutParams` |
| Routes.CallWithoutArgument | src/index.ts:26-37 | calling a route with no argument throws exactly when some `/`-piece of its pattern starts with `:` (reading a parameter from `undefined`) |
| Routes.CallWithoutParams | src/index.ts:24-40 | with no argument, a parameter-free pattern that starts with `/` renders its own `.route` |
| Routes.ExecReadsOnlyParams | src/index.ts:28-33 | two maps that agree at the pattern's parameter names render the same path |
| Routes.JoinIsNormal | src/index.ts:34-36 | joining non-empty `/`-free texts gives text with no `//` that neither starts nor ends with `/` |
| Routes.ExecPieces | src/index.ts:26-37 | when no value contains `/`: the path's non-empty pieces are the non-empty rendered texts in order; there is no `//`; there is no trailing `/` unless the path is `/`; the path is already normalised |
| Routes.ExecWithPlainValues | src/index.ts:26-37 | when no string value contains `/`, the path a route renders has no `//`, is already normalised, and its non-empty pieces are the non-empty rendered texts; numbers and the `undefined` of a missing name never bring in a `/` |
| Routes.ExecIsNormalisedSubstitution | src/index.ts:26-37 | when no rendered text contains `/` or a line terminator, the call equals "substitute the texts into the pieces, join with `/` behind a leading `/`, normalise" |
| Routes.ExecWithoutParams | src/index.ts:24-40 | a parameter-free pattern that starts with `/` renders to its own `.route` under any map |
| Routes.RootRouteExample | test/index.test.ts:3-10 | `route('/')`: `.route`, `p()` and `p({})` are all `/` |
| Routes.UsersRouteExample | test/index.test.ts:12-18 | `route('/users/:id')`: `p({id: 1})` is `/users/1` and `.route` is `/users/:id`, as the test expects; and `p()` throws, because `params[paramName]` at src/index.ts:66 reads from `undefined` |
| Routes.ParamValueExamples | src/index.ts:34 | on `/a/:n`: `0` renders and is kept (`/a/0`); a missing name gives `/a/undefined`; an empty string is dropped with its `/` (`/a`) |
| Namespace.Build | src/index.ts:90 | the ternary as defined: a string leaf becomes `route` of it, a nested object becomes `createRoutes` of it; its properties are stated by `Namespace.BuildShape` and `Namespace.EraseBuild` |
| Namespace.CreateRoutes | src/index.ts:84-93 | the result has exactly the configuration's keys |
| Namespace.BuildShape | src/index.ts:84-93 | at every level the output has the input's keys; a string leaf becomes `route` of it; a nested object becomes a group of the same shape |
| Namespace.CreateRoutesShape | src/index.ts:84-93 | the top-level form of `BuildShape` |
| Namespace.LeafRoute | src/index.ts:90 | a leaf's entry is a route whose `.route` is the normalised leaf |
| Namespace.EraseBuild | src/index.ts:84-93 | nothing is lost: erasing the built router gives the configuration back |
| Namespace.SpreadKeys | src/index.ts:86-92 | the `reduce` with object spread, over any listing of the keys, maps every key of the configuration, and nothing else, to the function of its value |
| Namespace.CreateRoutesByFold | src/index.ts:84-93 | the top-level `reduce` with `Build` as callback equals the comprehension, whatever the key order |
| Namespace.BuildByFold | src/index.ts:84-93 | `createRoutes` computed with the `reduce` loop at every level, recursing into nested objects and visiting the keys in any order, equals `Build` |
| Namespace.UsersNamespaceExample | src/index.ts:84-93 | `createRoutes({users: {show: '/users/:id', list: '/users'}})`: `users.show.route` is `/users/:id` and `users.list({})` is `/users` |

## Left out

- The type-level machinery (`RouteParams`, `Params`, `ParsedRoute`, `RouteConfig`, `Router` at lines 1-22 and 42-46, 70-82): these are compile-time types and have no runtime behaviour. `ParsedRoute` is a type-level copy of `validateRoute`, and `Validate` models the runtime function it mirrors.
- Calling a route with no argument: the code reads `params[paramName]` on `undefined`, which throws a `TypeError`. `Routes.Call` with `None` gives `TypeError` exactly when there is a parameter part; the thrown error's message is not modelled.
- Parameter values other than strings and safe integers (fractions, `NaN`, `Infinity`, objects): the decimal formatting of such numbers is floating-point behaviour.
- Values.IntString: it is `${n}` only for |n| <= 2^53 - 1. Above that, JavaScript prints the shortest round-trip digits padded with zeros (2^60 prints `1152921504606847000`), and from 1e21 on it uses exponent form (`1e+21`). `Value.Num` therefore holds only a `SafeInt`.
- Values.ValueString: a number is modelled only as a safe integer, for the reason given for `Values.IntString`.
- Routes.ParseValue: a number is modelled only as a safe integer, for the reason given for `Values.IntString`.
- Routes.ParseValue: a name that is not an own key but is found on the prototype chain (e.g. `toString`) renders that inherited property in JavaScript. The model treats every name not in the map as missing, which gives `undefined`.
- Namespace.CreateRoutesByFold: the key order of `Object.keys` is an input (a key list here; in `Namespace.BuildByFold` each step picks any unvisited key). Its exact order (integer-like keys first, then insertion order) does not change the result, as both members show.
- Configuration leaves other than strings and nested objects: `RouteConfig` (src/index.ts:70-78) types numbers and symbols as `never`, but `null`, `undefined` and booleans pass it. At run time the first two throw in `Object.keys`, and `true` becomes `{}`. The closed `Config` tree of strings and maps excludes all of them.
- Strings are sequences of characters. JavaScript's UTF-16 code units and surrogate pairs are not distinguished.
- Routes.ExecPieces: the "no `//` in the path" and "already normalised" claims hold only when no value contains `/`. A value with `/` is inserted verbatim, as in the source.
- Routes.ExecWithoutParams: it requires a pattern with no line terminator. After a line terminator, `validateRoute` keeps a trailing `/` that the call drops.
- Validate.ValidateRouteIsSegments: it requires no line terminators, for the same reason.
