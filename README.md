# cosy core, modelled in Dafny

This project models the core of `cosy`, a generic resource-handling engine for
Go web services, and proves properties of the model. It covers six pieces:

- **The model-metadata resolver** (`model/models.go`).
  - A process-wide registry of record types.
  - `deepResolve`, which walks a struct's fields in declaration order and flattens anonymous embedded structs (and pointers to structs).
  - For every other field it records the JSON name, and the default value and unique flag read from the `gorm` tag.
  - The table of resolved models, keyed by type name.
- **The request context `Ctx[T]`** (`cosy.go`): its defaults, its fluent setters, the column whitelist and the fail-safe parse of the `id` path parameter.
- **Preload resolution** (`preload.go`): one query scope per preload name, in order.
- **The `Get` endpoint** (`item.go`): abort short-circuit, setup steps, the scan override, the fetch and its error path, and the raw or transformed response.
- **Settings** (`settings/settings.go`): the default section list, `Register`, and `ProtectedFill`, which copies new settings over old ones except for fields tagged `protected:"true"`.
- **Redis key handling** (`redis/redis.go`): `buildKey` and the key each client call sends, including the in-place key rewrite in `Del`.

Files:

| file | module | contents |
|---|---|---|
| `wrappers.dfy` | `Wrappers` | `Option` |
| `text.dfy` | `Text` | `strings.Split` (one-character separator), its inverse `Join`, and `strings.Contains` |
| `reflect.dfy` | `Reflect` | a finite type descriptor in place of Go reflection: basic, pointer and struct types, and fields with name, type, tag map and anonymous flag |
| `cast.dfy` | `Cast` | `cast.ToInt` on strings: the trim of a trailing zero decimal, the int64 parse with base 0, and 0 on failure |
| `models.dfy` | `Model` | tag parsing, flattening, `ResolvedModel` and the registry |
| `cosy.dfy` | `Cosy` | `Ctx`, `resolvePreload` and `Get` |
| `settings.dfy` | `Settings` | sections and `ProtectedFill` |
| `redis.dfy` | `Redis` | `buildKey` and the client calls |

State that the Go code updates in place is a Dafny class:

- `ResolvedModel` and `ModelRegistry`;
- `Ctx`;
- `SectionRegistry`;
- the Redis `Client`.

Loops are `while` loops with invariants:

- the `gorm`-tag scan;
- `deepResolve`;
- `ResolvedModels`;
- `AddColWhiteList`;
- `resolvePreload`;
- `ProtectedFill`;
- `Del`.

Each method is proved against a specification function, and the properties are proved about those functions:

- `LeafFields`, `ResolveFields` and `IndexByName` for the resolver;
- `ResolveAll` for the registry;
- `GormDefault` and `GormUnique` for the tag scan;
- `Whitelist` for the column whitelist;
- `PreloadScopes` for preload resolution;
- `GetEffects` for `Get`;
- `Fill` for `ProtectedFill`;
- `BuildKeys` for `Del`.

Points about the code that the model makes explicit:

- `SetValidRules` only stores the rules, with no extraction of uniqueness markers.
- `GetParamID` always reads the path parameter named `id`, whatever `SetItemKey` set. It reads it with `cast.ToInt`, which parses a signed int64.
- The filter fields of `Ctx` (`in`, `eq`, `fussy`, `orIn`, `orEq`, `orFussy`, `search`) are declared but no code of the core uses them. They are not modelled.
- `item.go` writes its responses through `c.ctx`, a field that the `Ctx` declaration in `cosy.go` does not have. The model takes it to be the request's own context.

## Model

| member | source | states |
|---|---|---|
| `Text.Split` | model/models.go:60 | the parts of `strings.Split` with a one-character separator: always at least one part, no part contains the separator, and joining them gives the input back |
| `Text.JoinSplit` | model/models.go:77 | splitting a join of separator-free parts gives the parts back, so Split and Join are inverse |
| `Text.SplitCount` | model/models.go:80-81 | the number of parts is one more than the number of separators |
| `Text.SplitFirst` | model/models.go:60-62 | the first part is the prefix of the input up to the first separator, or the whole input when it has none |
| `Text.Contains` | model/models.go:79 | `strings.Contains` holds exactly when the substring occurs at some index |
| `Reflect.TagGet` | model/models.go:59 | `StructTag.Get`: the value stored for the key, and "" when the tag has no such key |
| `Reflect.TypeName` | model/models.go:105 | `Type.Name()`: "" for a pointer type, and the defined name for any other type |
| `Reflect.TypeString` | model/models.go:69 | a pointer type's string starts with `*` |
| `Cast.TrimFrom` | cosy.go:94 | the trim of `cast.ToInt` either leaves the string whole, or cuts it at a decimal point followed only by zeros and points, at least one of them a zero; so "12." is left whole |
| `Cast.ParseInt` | cosy.go:94 | the parse of the trimmed string is always within int64, and the empty string gives 0 |
| `Cast.ToInt` | cosy.go:94 | the result is always within int64; the empty string gives 0 |
| `Cast.ToIntDecimal` | cosy.go:94 | every non-negative int64 written in decimal parses back to itself |
| `Cast.ToIntNegative` | cosy.go:94 | a minus sign before the decimal spelling gives the negated value, down to the int64 minimum |
| `Cast.ParseIntNotNumeric` | cosy.go:94 | a character of the trimmed string that is not a digit (or a leading sign) makes the parse fail |
| `Cast.ToIntNotNumeric` | cosy.go:94 | a character that is not a digit, a decimal point or a leading sign makes the result 0, since the trim cannot remove it |
| `Cast.ToIntZeroDecimal` | cosy.go:94 | a decimal number followed by a point and zeros, such as "12.00", reads as that number |
| `Cast.ToIntOutOfRange` | cosy.go:94 | a decimal value beyond int64 gives 0 |
| `Cast.ToIntLeadingZero` | cosy.go:94 | with base 0 a leading zero means octal: "010" is 8 and "09" is 0 |
| `Model.JsonName` | model/models.go:59-65 | the JSON name is a prefix of the `json` tag without a comma, followed in the tag by a comma or by nothing; an absent tag gives "" |
| `Model.ParseGormTag` | model/models.go:74-90 | the loop over the `;` segments leaves exactly `GormDefault` and `GormUnique` of the tag, including the `continue` past a "default" segment without exactly one colon |
| `Model.LastDefaultIsLast` | model/models.go:78-85 | the default is the part after the colon of the last segment that sets a default, and "" when none does |
| `Model.EmptyGormTag` | model/models.go:76 | an empty `gorm` tag leaves the default "" and the unique flag false |
| `Model.GormDefaultSegment` | model/models.go:79-84 | a segment `key:value` that mentions "default" sets the default to `value` |
| `Model.GormSkippedSegment` | model/models.go:79-83 | a segment that mentions "default" without exactly one colon (none, or two or more) sets no default and does not mark the field unique, even if it mentions "unique" |
| `Model.GormUniqueSegment` | model/models.go:86-88 | a segment that mentions "unique" and is not skipped marks the field unique; so `uniqueIndex` counts |
| `Model.GormIndexNameMentionsDefault` | model/models.go:75-88 | a `uniqueIndex:name` segment whose name contains "default" marks the field unique and also makes its name the default value |
| `Model.Unwrap` | model/models.go:47-51 | the type tested for embedding is the struct a pointer-to-struct field points to, and the field's own type otherwise; it is a struct exactly when the field's type is a struct or a pointer to one |
| `Model.FlatPrefixLeaves` | model/models.go:53-57 | no embedded field is ever recorded itself, and the number of recorded fields is the leaf count, embeds counted recursively |
| `Model.DirectFieldsAreLeaves` | model/models.go:43-95 | every direct field that is not embedded is recorded |
| `Model.FlatStructIsItself` | model/models.go:43-95 | a struct without embedded fields resolves to its own fields, in order |
| `Model.LastWithNameIsLast` | model/models.go:92-95 | finds the last recorded field with a given name, or reports that there is none |
| `Model.IndexByNameLast` | model/models.go:92-95 | after storing fields one by one, a name is present iff it was before or some stored field has it; it holds the last field stored under that name; other entries are untouched |
| `Model.IndexByNameSize` | model/models.go:92-95 | `Fields` never has more entries than `OrderedFields` |
| `Model.ResolveListsLeaves` | model/models.go:92-95 | `OrderedFields` has one entry per leaf, each resolved from that leaf; every `Fields` entry is stored under its own name and appears in `OrderedFields` |
| `Model.ResolvedModel.constructor` | model/models.go:104-108 | a new `ResolvedModel` has the given name, an empty map and an empty list |
| `Model.ResolvedModel.DeepResolve` | model/models.go:42-97 | the leaf fields of the type are appended to `OrderedFields` in order and stored under their names in `Fields` |
| `Model.ResolvedModel.ResolveInto` | model/models.go:44-95 | one field: an anonymous struct, or pointer to one, appends all its leaves in order; any other field appends and stores its own description |
| `Model.ResolvedModel.Record` | model/models.go:92-95 | the field is stored under its name in `Fields` and appended to `OrderedFields` |
| `Model.ResolveLeaf` | model/models.go:59-90 | the description of a non-embedded field: its name, type string, JSON name, `cosy` tag, and the default and unique flag of its `gorm` tag |
| `Model.NewResolvedModel` | model/models.go:103-110 | a fresh `ResolvedModel` holding the resolution of the type |
| `Model.ResolveAllStep` | model/models.go:101-112 | resolving one more registered type overwrites the entry under its name with its resolution |
| `Model.LastNamedIsLast` | model/models.go:112 | finds the last registered type with a given name, or reports that there is none |
| `Model.ResolveAllLastWins` | model/models.go:100-114 | after resolving, a name is present iff it was present before or some registered type has it; it holds the resolution of the last type with that name; other entries are untouched |
| `Model.ModelRegistry.constructor` | model/models.go:8-40 | the collection and the resolved table start empty |
| `Model.ModelRegistry.GenerateAllModel` | model/models.go:11-13 | returns the collection as it stands |
| `Model.ModelRegistry.RegisterModels` | model/models.go:16-18 | the arguments are appended after the existing entries, in order |
| `Model.ModelRegistry.ClearCollection` | model/models.go:21-23 | the collection is empty afterwards |
| `Model.ModelRegistry.ResolvedModels` | model/models.go:100-114 | the resolved table becomes `ResolveAll` of the old table and the collection: one model per registered type, holding its resolution, keyed by type name |
| `Model.ModelRegistry.Store` | model/models.go:103-112 | one iteration: the resolution of the type is stored under its name and nothing else changes |
| `Model.ModelRegistry.GetResolvedModel` | model/models.go:116-119 | the model stored under the type's name, or null when the name is absent |
| `Cosy.PreloadScopes` | preload.go:13-17 | one preload scope per name, the i-th scope preloading exactly the i-th name |
| `Cosy.WhitelistIsWhitelistOf` | cosy.go:97-102 | inserting the columns one by one gives the old whitelist with every column set to true |
| `Cosy.AllWhitelisted` | cosy.go:97-102 | every column is whitelisted, earlier entries remain with their values unless re-inserted, and nothing else appears |
| `Cosy.WhitelistIdempotent` | cosy.go:97-102 | inserting the same columns again changes nothing |
| `Cosy.WhitelistOrderIndependent` | cosy.go:97-102 | only which columns are inserted matters, not their order or repetitions |
| `Cosy.GetEffectsPaths` | item.go:13-44 | the database handle, the table and the scopes come first; exactly one outcome follows, and it is last; a scan answers 200 with the scan and never fetches; otherwise the fetch runs, and an error gets only the error handler with no response, while a record gets 200 with the record or with the transformer's value |
| `Cosy.Ctx.Core` | cosy.go:49-59 | the defaults: item key "id", associations skipped on create, no abort, empty whitelist, scopes, hooks and preloads, no scan and no transformer |
| `Cosy.Ctx.SetTable` | cosy.go:61-65 | sets the table and its arguments, changes nothing else, returns the same context |
| `Cosy.Ctx.SetItemKey` | cosy.go:67-70 | sets the item key only, returns the same context |
| `Cosy.Ctx.SetValidRules` | cosy.go:72-76 | stores the rules as given and changes nothing else |
| `Cosy.Ctx.SetPreloads` | cosy.go:78-81 | appends the names after the existing preloads, so calls accumulate |
| `Cosy.Ctx.SetScan` | cosy.go:83-86 | sets the scan only, returns the same context |
| `Cosy.Ctx.SetTransformer` | cosy.go:88-91 | sets the transformer only, returns the same context |
| `Cosy.Ctx.Param` | cosy.go:94 | `c.Param(key)`: the path parameter's value, and "" when the route has no parameter of that name |
| `Cosy.Ctx.GetParamID` | cosy.go:93-95 | the id is within int64 and is 0 when the route has no `id` parameter; it never fails |
| `Cosy.Ctx.AddColWhiteList` | cosy.go:97-102 | the whitelist becomes `Whitelist` of the old one and the columns; nothing else changes |
| `Cosy.Ctx.ResolvePreload` | preload.go:8-18 | appends one preload scope per name, in order, after the existing scopes; the preload list is unchanged, and an empty one adds nothing |
| `Cosy.Ctx.Reply` | item.go:26-44 | answers by the scan when there is one; otherwise fetches the record and hands an error to the error handler, or answers 200 with the record or the transformer's value: exactly the steps of `Answer` |
| `Cosy.Ctx.Get` | item.go:8-45 | an aborted request changes no scopes and does nothing; otherwise the preload scopes are added and exactly the steps of `GetEffects` are performed |
| `Cosy.ParamIDDecimal` | cosy.go:93-95 | a decimal `id` parameter within int64 is the id |
| `Cosy.ParamIDNotNumeric` | cosy.go:93-95 | an `id` parameter containing a character other than a digit, a decimal point or a leading sign gives 0 |
| `Settings.SectionRegistry.constructor` | settings/settings.go:19-40 | the sections start as app, server, database, redis and sonyflake, in that order |
| `Settings.SectionRegistry.Register` | settings/settings.go:43-45 | appends one section at the end and keeps the existing ones |
| `Settings.ProtectedOnlyByTrue` | settings/settings.go:104 | a field is protected exactly when its `protected` tag is present and equals "true"; an absent or empty tag, or "yes", does not protect |
| `Settings.Fill` | settings/settings.go:103-107 | a protected field keeps the target's value, and every other field takes the new value |
| `Settings.FillIdempotent` | settings/settings.go:97-108 | filling twice from the same new settings is filling once |
| `Settings.FillUnprotected` | settings/settings.go:97-108 | without protected fields the target becomes a copy of the new settings |
| `Settings.FillAllProtected` | settings/settings.go:97-108 | when every field is protected the target keeps all its values |
| `Settings.ProtectedFill` | settings/settings.go:97-108 | the target's field values become `Fill` of the old values and the new settings; the new settings are not changed |
| `Redis.BuildKey` | redis/redis.go:28-34 | the stored key is the prefix, a colon and the key, so its length is the sum plus one |
| `Redis.StripBuild` | redis/redis.go:28-34 | stripping the prefix from a built key gives the key back |
| `Redis.BuildStrip` | redis/redis.go:28-34 | a stored key that strips is the built key of what it strips to |
| `Redis.BuildKeyInjective` | redis/redis.go:28-34 | under one prefix, distinct keys give distinct stored keys |
| `Redis.PrefixesCanCollide` | redis/redis.go:28-34 | under different prefixes keys can collide: prefix `p` with key `:k` equals prefix `p:` with key `k` |
| `Redis.BuildKeys` | redis/redis.go:49-51 | the rewritten keys keep length and order, and each is the built key of the original |
| `Redis.Client.constructor` | redis/redis.go:12 | a client with the configured prefix that has sent nothing |
| `Redis.Client.Get` | redis/redis.go:36-38 | sends a GET for exactly the built key |
| `Redis.Client.Incr` | redis/redis.go:40-42 | sends an INCR for exactly the built key |
| `Redis.Client.Set` | redis/redis.go:44-46 | sends a SET for exactly the built key, with the value and expiration |
| `Redis.Client.Del` | redis/redis.go:48-53 | rewrites the caller's array in place, each element to its built key, then sends a DEL of the rewritten keys |

## Left out

- `map2struct/hook.go` is not part of this model. Its conversions are thin wrappers over conversion libraries, and some go through floating point.
- Settings I/O is left out: `Init`, `load`, `Reload`, `setup`, `mapTo`, `ReflectFrom` and `Save`. They read and write an ini file. `load`, `mapTo` and `ReflectFrom` end the process on failure; `Save` returns the error from writing the file.
- Redis network traffic is left out. This covers `Init`'s connection and test write, and the replies and errors of `Get`, `Incr`, `Set` and `Del`. A call is recorded as the command it sends. The expiration is an integer, and the value passed to `Set` is a string, while Go accepts any value (`interface{}`).
- The Redis key prefix comes from the Redis settings on every call. It is modelled as a constant of the client.
- Go reflection is replaced by the `Reflect` descriptor.
  - Type strings are the type's name, or `*` before the element's string.
  - Package-qualified names, and kinds other than pointer and struct, are not distinguished.
  - Struct tags are given already split into key/value pairs. The raw tag syntax is not parsed.
  - No struct can refer to its own type, because a datatype value is finite. An ordinary self-referencing field such as `Parent *Category`, which Go records as a plain leaf, has to be written with an opaque element, `Ptr(Basic("Category"))`, to get the type string `*Category`. In particular a struct cannot embed itself through a pointer. In Go, `type Node struct { *Node }` makes `deepResolve` recurse without end until the stack overflows. The finite datatype gives the model a decreasing measure that the Go code does not have.
- `NewCosyTag` is not part of this model. The model keeps the raw `cosy` tag text.
- `deepResolve` stores one `resolvedModelField` pointer in both `Fields` and `OrderedFields`. The model stores equal values, so it does not capture the aliasing.
- `Model.ModelRegistry.ResolvedModels` requires every registered entry to be a struct type. For any other type, `deepResolve` would panic in `NumField`.
- `Cast.ToInt` covers a subset of what `cast.ToInt` accepts. The covered part is the trim of a trailing zero decimal, signs, decimal digits, octal after a leading zero, int64 range, and 0 on any failure. It leaves out the `0x`, `0o` and `0b` prefixes and the digit separator `_`. For those inputs the model answers 0 where the library may answer a number. `int` is taken to be 64 bits wide, so `ParseInt` with bit size 0 has the int64 range.
- `Cast.ToIntNotNumeric` and `Cosy.ParamIDNotNumeric` say nothing about a decimal point, because the trim can remove one. They also say nothing about a leading sign: `-5` and `+5` parse as -5 and 5.
- `Ctx` keeps only the parts that the modelled operations use:
  - The embedded request context appears only as its path parameters.
  - `ID`, `Payload`, `Model`, `OriginModel`, `nextHandler`, the filter fields and the `preload` field (separate from `preloads`) are left out, because no modelled code reads or writes them.
  - Hooks are stored but never run.
  - No validation is modelled.
- `handleTable`, `appleGormScopes`, `GormScope`, `errHandler` and `model.UseDB` are not part of this model.
  - `Get` records each of them as an effect.
  - `Cosy.Ctx.Get` assumes that `handleTable` and `appleGormScopes` leave the scope list unchanged, and that `scan` and `First` receive the query built from that list. Those functions are not part of this model.
  - `GormScope` is taken to append its argument to the scope list.
  - The database handle that `scan` and `First` receive is modelled as the list of scopes applied to it. Gorm's chaining semantics are not modelled.
  - The zero record `new(T)` is not modelled. The answer of `First` carries the record or the error.
- `Cosy.PreloadScopes` assumes per-iteration loop variables (Go 1.22 or later, which the module needs for `reflect.TypeFor`). The closure in `resolvePreload` captures the loop variable `v`, so with an older Go every scope would preload the last name.
- `ProtectedFill` is modelled on an array of field values with one element type. It requires both arguments to have the struct's number of fields. The reflection panics for unexported fields or mismatched types are not modelled.
- Concurrency and the package-level globals are left out. The globals are `collection`, `resolvedModelMap`, `sections` and the Redis client; each is modelled as an object passed explicitly, with no locking or races.
