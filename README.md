# LiveView variants for the styling engine

This project models the Phoenix LiveView variant plugin of the `whistle`
application. The styling engine (Tailwind) loads the plugin and calls its
registration callback once, handing it the `addVariant` capability. The
callback then registers four variants, in a fixed order. Each variant is
keyed on a marker class that LiveView applies to elements, so that a rule
takes effect only while that class is applied. `phx-click-loading`,
`phx-submit-loading` and `phx-change-loading` mark elements whose click,
submit or change event is in flight. `phx-no-feedback` marks form inputs
that the user has not yet interacted with. Markup can then write
`phx-click-loading:animate-ping`.

Each variant gets two selector patterns. `.N&` means the element itself
carries class `N`. `.N &` means an ancestor of the element carries it. The
`&` is the placeholder that the engine later replaces with the element's own
selector.

- `Selectors.dfy` (module `Selectors`) holds the pure side. `Patterns(name)`
  gives the pattern pair. `Render` and `Parse` translate between a pattern
  and the marker class and scope it keys on; they are inverses of each
  other for class-name markers. It also proves lemmas about the shape of the
  patterns.
- `Variants.dfy` (module `Variants`) holds the imperative side. The engine's
  variant table is the class `VariantTable`. It has a map from names to
  pattern lists, plus a log of every `addVariant` call. `AddVariant` updates
  both in place. `Register` is the callback: it makes the four literal
  calls in source order. Its contract ties the result to `Apply`, a function
  that folds the calls over a table, each call overwriting the entry of its
  own name. The lemmas about `Apply` state what the registration leaves
  behind.

The engine's `addVariant` is modelled as a last-write-wins map update. A
second registration of a name overwrites the first, so registering twice
leaves the same table as registering once (`ApplyIdempotent`). The engine's
own code is not part of this model.

## Model

| member | source | states |
|---|---|---|
| `Selectors.Patterns` | assets/vendor/phoenix-liveview.js:9-12 | a variant gets exactly two patterns: the self form first, then the ancestor form |
| `Selectors.Parse` | assets/vendor/phoenix-liveview.js:9-12 | whatever a string is read back as has a class-name marker, and rendering it gives that same string again |
| `Selectors.ParseRender` | assets/vendor/phoenix-liveview.js:4-12 | reading back the pattern of a class name gives that marker class and the scope it was written for |
| `Selectors.PatternsDifferBySpace` | assets/vendor/phoenix-liveview.js:9-12 | the ancestor pattern is the self pattern with one space inserted just before its final `&` |
| `Selectors.PlaceholderOnceAtEnd` | assets/vendor/phoenix-liveview.js:9-12 | for a class name, each of its two patterns holds the `&` placeholder exactly once, as the last character |
| `Selectors.PatternsDetermineMarker` | assets/vendor/phoenix-liveview.js:9-12 | two class names share a pattern only if they are the same name and the pattern has the same scope |
| `Variants.ApplySnoc` | assets/vendor/phoenix-liveview.js:9-12 | one more call updates the entry of its own name and nothing else |
| `Variants.ApplyOverrides` | assets/vendor/phoenix-liveview.js:9-12 | calls never remove entries: the result is the old table overridden by the entries the calls register |
| `Variants.ApplyIdempotent` | assets/vendor/phoenix-liveview.js:3-13 | making the same calls twice leaves the same table as making them once |
| `Variants.ApplyKeys` | assets/vendor/phoenix-liveview.js:9-12 | the keys after the calls are the old keys plus exactly the names the calls register |
| `Variants.ApplyLookup` | assets/vendor/phoenix-liveview.js:9-12 | a name that no later call registers again maps to the patterns of its own call |
| `Variants.DeclarationsAreRegular` | assets/vendor/phoenix-liveview.js:4-12 | four calls in the order phx-no-feedback, phx-click-loading, phx-submit-loading, phx-change-loading; each name is a class name starting with `phx-`; the names are pairwise distinct; each pattern list equals `Patterns(name)` |
| `Variants.DeclarationIsRegular` | assets/vendor/phoenix-liveview.js:9-12 | any one of the four literal calls names a `phx-` class and passes exactly `Patterns` of that name |
| `Variants.NoFeedbackIsRegular` | assets/vendor/phoenix-liveview.js:9 | the literal call for `phx-no-feedback` names a class starting with `phx-`, and its two literal patterns are exactly `Patterns("phx-no-feedback")` |
| `Variants.ClickLoadingIsRegular` | assets/vendor/phoenix-liveview.js:10 | the literal call for `phx-click-loading` names a class starting with `phx-`, and its two literal patterns are exactly `Patterns("phx-click-loading")` |
| `Variants.SubmitLoadingIsRegular` | assets/vendor/phoenix-liveview.js:11 | the literal call for `phx-submit-loading` names a class starting with `phx-`, and its two literal patterns are exactly `Patterns("phx-submit-loading")` |
| `Variants.ChangeLoadingIsRegular` | assets/vendor/phoenix-liveview.js:12 | the literal call for `phx-change-loading` names a class starting with `phx-`, and its two literal patterns are exactly `Patterns("phx-change-loading")` |
| `Variants.RegisteredPatternsEndInPlaceholder` | assets/vendor/phoenix-liveview.js:9-12 | each of the eight registered patterns holds one `&`, as its last character |
| `Variants.RegisteredPatternsDistinct` | assets/vendor/phoenix-liveview.js:9-12 | no two of the eight registered patterns are equal |
| `Variants.RegisteredTable` | assets/vendor/phoenix-liveview.js:9-12 | from an empty table, the four calls leave exactly the four names as keys, each mapped to its two patterns in order |
| `Variants.VariantTable.constructor` | assets/vendor/phoenix-liveview.js:3 | the table the `addVariant` handed to the callback updates, taken empty and with an empty call log (see "Left out" on the engine's built-in variants) |
| `Variants.VariantTable.AddVariant` | assets/vendor/phoenix-liveview.js:9-12 | `addVariant(name, patterns)` appends the call to the log and sets the entry of `name`; every other entry is unchanged; the table stays the fold of its log |
| `Variants.Register` | assets/vendor/phoenix-liveview.js:3-13 | the callback appends exactly the four literal calls, in source order, to the log; the table becomes the old table with those four calls applied |
| `Variants.LoadPlugin` | assets/vendor/phoenix-liveview.js:1-13 | loading the plugin once on a fresh engine logs the four calls, and the table has exactly the four names, each mapped to `Patterns(name)` |

## Left out

- `assets/tailwind.config.js` exports an empty configuration object; its only other content is commented-out paths. It has no behaviour to model.
- The `require` of the engine's plugin helper and the `plugin(...)` wrapper (`assets/vendor/phoenix-liveview.js:1,3`) call into the engine, whose code is not part of this model. `Register` takes the table that `addVariant` updates as its parameter instead.
- How the engine later expands `&` into concrete CSS selectors, and style sheet generation, belong to the engine and are not modelled.
- The `module.exports` assignment and how the build tool loads the file are module plumbing, not behaviour.
- `Variants.VariantTable.AddVariant`: the engine's `addVariant` also accepts a single pattern or a function, and the engine may treat repeated registration differently. The model takes the list form that this plugin uses, with last-write-wins semantics.
- The failure path is not modelled. If the engine hands the callback no `addVariant` (the destructuring at `assets/vendor/phoenix-liveview.js:3`), or one of the calls at lines 9-12 throws, the callback stops and the remaining calls are never made. `Register` takes a table whose `AddVariant` always succeeds, so a partial registration cannot be represented.
- The engine's own built-in variants are not modelled. `VariantTable` starts empty, so "exactly the four names" (`RegisteredTable`, `LoadPlugin`) holds for a fresh table only. For a table that already holds entries, `Register`'s contract together with `ApplyKeys` and `ApplyOverrides` gives the result: the old entries overridden by the four registrations.
