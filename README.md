# CascadeCanvas, modelled in Dafny

CascadeCanvas is a small JavaScript library for canvas games. A page creates
*elements*, which are plain property bags. It also defines *classes*: named lists of
constructor functions that an element inherits, running each constructor on itself.

- **Registry.** The library keeps every live element in a registry keyed by its
  `#id` or by a running count.
- **Selection.** Elements are selected with a selector such as `"#hero Enemy Boss"`
  or `"*"`.
- **Events.** Handlers are bound to events in named domains (`"jump.ui"`), both
  globally (`CC.bind`) and per element.
- **Watchers.** Per-element watchers fire when an element starts to match a property
  specification (`became`), on every frame while it matches (`while`), or when a click
  lands inside it (`onClick`).
- **Main loop.** Each pass triggers `enterframe`, draws every element in `zIndex`
  order (polygons, rectangles, circles and tiled sprite sheets) and counts the step.
- **Keyboard.** Key presses are tracked by name, so handlers can test key
  combinations such as `"Ctrl + Up"`.
- **Element lists.** `ElementList` is what a multi-element selection returns. It
  forwards most operations to each of its elements. The released bundle
  (`dist/cascadecanvas-1.0.4.js`) and the newer `src/elementlist.js` both contain one.

The model has these modules, one per file:

- `JsObject` and `JsValues`: the JavaScript values, objects and string operations the
  library relies on. This covers property order, `split`, the `#id` pattern, string to
  number conversion and the loose comparisons.
- `ObjectTools`: `CC.merge` and `CC.sort`.
- `Matching`: `element.matches`.
- `Events`: the event tables behind `bind`, `unbind` and `trigger`.
- `Keyboard`: the key map and the key-combination predicates.
- `Drawing`: `drawShape`.
- `Elements`: the `Element` class, where an element's fields are updated in place.
- `Registry`: deletion from the registry.
- `Cascade`: the `World` class, which holds the library's global state and the
  operations on it.
- `Collection`: the dist `ElementList` class.
- `SourceList`: the `src/elementlist.js` list class.

Executions are modelled as `Run` values. A run is the trace of calls made into page
code plus the exception, if any, that ended it. This makes the order of callbacks and
the exceptions the library lets escape part of every contract.

## Model

| member | source | states |
|---|---|---|
| JsObject.NatToStringRoundTrip | dist/cascadecanvas-1.0.4.js:118 | the decimal key a counted element is stored under reads back as the count |
| JsObject.DeleteGet | dist/cascadecanvas-1.0.4.js:168 | after `delete obj[k]` only `k` reads as missing; every other key reads as before |
| JsObject.SetGet | dist/cascadecanvas-1.0.4.js:118 | after a property write the written key reads the new value and no other key changes |
| JsObject.SetPreservesOrder | dist/cascadecanvas-1.0.4.js:118 | a property write keeps the object's key order well formed: integer keys ascending first, then the other keys in insertion order |
| JsValues.SplitJoin | dist/cascadecanvas-1.0.4.js:130 | `split` loses nothing: joining its parts with the separator gives back the string |
| JsValues.IdToken | dist/cascadecanvas-1.0.4.js:51-55 | the `#id` pattern finds a token exactly when the string holds `#`; the token is `#` followed by letters and digits |
| JsValues.RemoveAllIdTokens | dist/cascadecanvas-1.0.4.js:881 | removing every `#id` token leaves no `#` in the class string |
| JsValues.NumericComparisons | dist/cascadecanvas-1.0.4.js:958-976 | comparing a number with a numeric string compares the numbers, for `<`, `>`, `<=`, `>=` and `==` |
| JsValues.NaNComparisons | dist/cascadecanvas-1.0.4.js:958-976 | comparing a number with a string that is not a number is false for every operator |
| JsValues.ExponentScales | dist/cascadecanvas-1.0.4.js:958-976 | a decimal literal with an exponent converts to its mantissa times that power of ten, and to NaN when the exponent is malformed |
| JsValues.RadixLiteral | dist/cascadecanvas-1.0.4.js:958-976 | a `0x`, `0o` or `0b` literal converts to its digits read in that radix |
| JsValues.NumberLiteralExamples | dist/cascadecanvas-1.0.4.js:958-976 | example: `"1e3"` converts to 1000 and `"0x10"` to 16 |
| JsValues.StringToNumberOfNumeral | dist/cascadecanvas-1.0.4.js:958-976 | a decimal numeral converts to the number it writes |
| JsValues.LeadingWhitespaceIgnored | dist/cascadecanvas-1.0.4.js:958-976 | a leading white-space or line-terminator character, the Unicode space separators included, is ignored when a string is converted to a number |
| ObjectTools.MergeAll | dist/cascadecanvas-1.0.4.js:334-371 | the loop over the arguments merges them into the first, left to right, stopping at the first exception, which carries the first argument as far as it was merged |
| ObjectTools.MergeRecursively | dist/cascadecanvas-1.0.4.js:336-361 | the loop over the source's properties computes the recursive merge |
| ObjectTools.MergeSkipsFalsy | dist/cascadecanvas-1.0.4.js:338-340 | a falsy target or source leaves the target unchanged |
| ObjectTools.MergeAllSequential | dist/cascadecanvas-1.0.4.js:363-370 | merging `a, b, c` is merging `b` into `a` and then `c` into the result; a failure in the first stops the rest |
| ObjectTools.MergeIntoScalar | dist/cascadecanvas-1.0.4.js:342-351 | merging an empty object into a truthy scalar keeps the scalar; merging an object whose first value is not an object throws a TypeError |
| ObjectTools.MergeObjects | dist/cascadecanvas-1.0.4.js:336-361 | merging two objects gives an object with distinct keys; each source key holds the merge of the target's value with the source's, and every other key keeps the target's value |
| ObjectTools.MergeLaterWins | dist/cascadecanvas-1.0.4.js:353-357 | a source property that is not an object overwrites the target's |
| ObjectTools.MergeDeepKeepsSiblings | dist/cascadecanvas-1.0.4.js:345-351 | nested objects are merged, not replaced: a key the source's sub-object lacks keeps the target's value |
| ObjectTools.CompareIsRankOrder | dist/cascadecanvas-1.0.4.js:390-419 | the sort comparator orders keys by a total rank in which a missing key counts as 0, and `invert` reverses it |
| ObjectTools.StableSortCorrect | dist/cascadecanvas-1.0.4.js:379-420 | the sort's result is ordered by the comparator, is a permutation of its input, and keeps equally ranked items in their input order |
| ObjectTools.SortRespectsComparator | dist/cascadecanvas-1.0.4.js:390-419 | no earlier item of the sorted result compares greater than a later one |
| ObjectTools.SortUndefinedLast | dist/cascadecanvas-1.0.4.js:379-420 | the sort keeps every item; the `undefined` items come last, after the sorted ones, and without `undefined` or `null` items the result is the comparator sort of all of them |
| ObjectTools.SortThrowsOnNull | dist/cascadecanvas-1.0.4.js:389-390 | a `null` item among two or more items that are not `undefined` makes the comparator throw a TypeError when it reads a property of `null` |
| ObjectTools.ValuesAsArray | dist/cascadecanvas-1.0.4.js:381-388 | a value that is not an array is turned into the array of its property values, in key order |
| Matching.MatchesEveryKey | dist/cascadecanvas-1.0.4.js:934-992 | an element matches a spec exactly when both are truthy and every key of the spec matches |
| Matching.MatchesNeedsDefinedKeys | dist/cascadecanvas-1.0.4.js:944-947 | a spec key the element lacks fails the match |
| Matching.MatchesEmptySpec | dist/cascadecanvas-1.0.4.js:938-940 | the empty spec matches exactly the truthy values |
| Matching.NestedSpec | dist/cascadecanvas-1.0.4.js:948-952 | an object in the spec is matched recursively against the element's property |
| Matching.AtMostExpression | dist/cascadecanvas-1.0.4.js:958-964 | `"<=n"` matches a number exactly when it is at most `n`, although the `"<"` test also reads that string |
| Matching.BelowExpression | dist/cascadecanvas-1.0.4.js:962-964 | `"<n"` matches a number exactly when it is below `n` |
| Matching.AtLeastExpression | dist/cascadecanvas-1.0.4.js:966-972 | `">=n"` matches a number exactly when it is at least `n` |
| Matching.AboveExpression | dist/cascadecanvas-1.0.4.js:970-972 | `">n"` matches a number exactly when it is above `n` |
| Matching.DifferentExpression | dist/cascadecanvas-1.0.4.js:974-976 | `"!=n"` matches a number exactly when it differs from `n` |
| Matching.LiteralNeedsStrictEquality | dist/cascadecanvas-1.0.4.js:978-982 | any other spec value matches only a strictly equal property, so an array spec never matches a copy of itself (the same array object is not told apart from a copy) |
| Events.ParseEvent | dist/cascadecanvas-1.0.4.js:197-199 | an event string names an event and a non-empty domain, neither containing a dot |
| Events.ParsePlainName | dist/cascadecanvas-1.0.4.js:263 | a name without a dot is in the domain `root` |
| Events.ParseEventString | dist/cascadecanvas-1.0.4.js:261-263 | parsing `evt.domain` gives back the event and the domain |
| Events.ParseIgnoresRest | dist/cascadecanvas-1.0.4.js:261-263 | anything after a second dot is ignored |
| Events.BindKeepsTable | dist/cascadecanvas-1.0.4.js:195-211 | binding keeps the event table well formed and creates the named domain |
| Events.BindAppends | dist/cascadecanvas-1.0.4.js:195-211 | binding appends the handler to its own event and domain and changes no other list |
| Events.UnbindRemovesOne | dist/cascadecanvas-1.0.4.js:222-246 | unbinding removes the named domain (for `root`, only the `root` domain, since the branch that would delete the whole event is never reached), keeps the table well formed, and is a no-op for an unknown event |
| Events.RootPlanFails | dist/cascadecanvas-1.0.4.js:266-270 | a `root` trigger throws exactly when some domain has more handlers than `root` does |
| Events.RootPlanCalls | dist/cascadecanvas-1.0.4.js:266-270 | otherwise it calls, for each domain, as many `root` handlers as that domain holds |
| Events.TriggerNamed | dist/cascadecanvas-1.0.4.js:272-276 | triggering a named domain calls that domain's handlers, in binding order |
| Events.TriggerNeedsRoot | dist/cascadecanvas-1.0.4.js:272 | a plain trigger with no `root` domain bound calls nothing |
| Events.TriggerRootOnly | dist/cascadecanvas-1.0.4.js:277-281 | with only `root` bound, a plain trigger calls the `root` handlers |
| Events.TriggerRootQuirk | dist/cascadecanvas-1.0.4.js:266-270 | example: with one `root` handler `f` and two `ui` handlers, triggering `jump` calls `f` twice and then throws |
| Events.CollectPlan | dist/cascadecanvas-1.0.4.js:266-282 | the loop over the domains collects exactly the calls and failure of the trigger |
| Events.RootPrefix | dist/cascadecanvas-1.0.4.js:267-268 | one domain's pass takes that many `root` handlers and fails when there are too few |
| Keyboard.KeyName | dist/cascadecanvas-1.0.4.js:488-567 | a key code missing from the key map names the key `"undefined"` |
| Keyboard.PressRelease | dist/cascadecanvas-1.0.4.js:571-579 | a key down adds the key's name, a key up removes it, and releasing a newly pressed key restores the set |
| Keyboard.Wanted | dist/cascadecanvas-1.0.4.js:600 | a key combination is upper-cased, stripped of spaces and split at `+` into at least one name, none holding a space or `+` |
| Keyboard.NormaliseExample | dist/cascadecanvas-1.0.4.js:597-600 | example: `"Up + a"` names the keys `UP` and `A` |
| Keyboard.KeysPressedIff | dist/cascadecanvas-1.0.4.js:599-609 | `isKeysPressed` holds exactly when every wanted key is down |
| Keyboard.KeysPressedOnlyIff | dist/cascadecanvas-1.0.4.js:616-635 | `isKeysPressedOnly` holds exactly when the keys down are the wanted keys |
| Keyboard.OnlyImpliesPressed | dist/cascadecanvas-1.0.4.js:616-635 | "only these keys" implies "these keys" |
| Keyboard.EmptyCombinationNeverPressed | dist/cascadecanvas-1.0.4.js:600-605 | the empty combination names the key `""`, which is never down |
| Keyboard.ComboEndedIff | dist/cascadecanvas-1.0.4.js:668-693 | `onKeysComboEnd` fires exactly when the wanted keys are the keys still down plus the one released |
| Drawing.MaxAllIsMaximum | dist/cascadecanvas-1.0.4.js:1279-1286 | the polygon's extent is defined exactly when every coordinate is a number; it is then their maximum, starting from 0 |
| Drawing.FoldPoints | dist/cascadecanvas-1.0.4.js:1277-1286 | the loop over a polygon's points computes its width and height, or fails on a missing point |
| Drawing.BoundingBox | dist/cascadecanvas-1.0.4.js:1277-1292 | the box a drawing is scaled into, taken from `w` and `h` or from the polygon |
| Drawing.PolygonBoxReachesPoints | dist/cascadecanvas-1.0.4.js:1277-1286 | a polygon's box is not negative, reaches every point, and is undefined exactly when some coordinate is not a number |
| Drawing.ShiftCentres | dist/cascadecanvas-1.0.4.js:1350-1353 | a resized drawing is moved so that its centre stays where the element's was |
| Drawing.ShiftOfUnresized | dist/cascadecanvas-1.0.4.js:1350-1353 | an unresized drawing is not moved; a missing number makes the position `NaN` |
| Drawing.FrameIndexCounts | dist/cascadecanvas-1.0.4.js:1572-1576 | the sprite frame shown is `(step / delay) mod frames` when the text of the quotient is plain decimal: zero, or at least 1e-6 and below 1e21 |
| Drawing.TinyQuotientShowsDigit | dist/cascadecanvas-1.0.4.js:1572-1576 | a quotient below 1e-6 is printed with an exponent, so `parseInt` reads only its first significant digit: the frame shown is that digit mod `frames`, not frame 0 |
| Drawing.TinyQuotientExample | dist/cascadecanvas-1.0.4.js:1572-1576 | example: at step 1 with a delay of 2000000 and 8 frames, the quotient `5e-7` shows frame 5 |
| Drawing.FrameIndexInRange | dist/cascadecanvas-1.0.4.js:1572-1576 | the frame shown is a whole number below the frame count, whatever the text of the quotient |
| Drawing.FrameIndexPeriodic | dist/cascadecanvas-1.0.4.js:1572-1576 | the animation repeats every `delay * frames` steps, where both quotients print in plain decimal |
| Drawing.FrameIndexHolds | dist/cascadecanvas-1.0.4.js:1572-1576 | a frame is held for `delay` steps, where both quotients print in plain decimal |
| Drawing.NegativeDelayIndex | dist/cascadecanvas-1.0.4.js:1572-1576 | a negative delay gives a frame index at or below 0, following JavaScript's signed `parseInt` and truncating `%`, whatever the text of the quotient |
| Drawing.StartsBelowBound | dist/cascadecanvas-1.0.4.js:1579-1594 | every tile after the first starts inside the element |
| Drawing.StartsReachBound | dist/cascadecanvas-1.0.4.js:1579-1594 | repeated tiles reach the element's edge, and an unrepeated sprite is drawn once |
| Drawing.GridHasEveryPair | dist/cascadecanvas-1.0.4.js:1579-1594 | every column start paired with every row start is painted |
| Drawing.GridOnlyPairs | dist/cascadecanvas-1.0.4.js:1579-1594 | nothing else is painted |
| Drawing.GridSize | dist/cascadecanvas-1.0.4.js:1579-1594 | the number of tiles is columns times rows |
| Drawing.Tiles | dist/cascadecanvas-1.0.4.js:1579-1594 | the two nested loops paint the grid of column and row starts, column by column |
| Drawing.PaintColumn | dist/cascadecanvas-1.0.4.js:1582-1592 | the inner loop paints one column of row starts |
| Drawing.SpriteSize | dist/cascadecanvas-1.0.4.js:1559-1570 | a sprite's given size is used when it is a number; with no size and no resource, reading the resource throws |
| Drawing.PaintSprite | dist/cascadecanvas-1.0.4.js:1558-1595 | the sprite painting code computes the sprite drawing of its cut and box |
| Drawing.DrawShape | dist/cascadecanvas-1.0.4.js:1270-1600 | `drawShape` computes what is painted, the anchors and completed gradients it writes back, and whether it throws |
| Drawing.HiddenIsSkipped | dist/cascadecanvas-1.0.4.js:1272-1274 | a hidden or falsy drawing paints nothing and does not throw |
| Drawing.CircleFillThrows | dist/cascadecanvas-1.0.4.js:1401-1421 | a filled circle throws a ReferenceError, after its fill gradient, if any, has been completed |
| Drawing.GradientDefaultsWrites | dist/cascadecanvas-1.0.4.js:1602-1610 | completing a gradient object sets a falsy `start` to `[0, 0]` and a falsy `end` to `[100, 0]`, and changes no other property |
| Drawing.PrimitiveGradientThrows | dist/cascadecanvas-1.0.4.js:1401-1403 | a fill whose `linearGradient` is a truthy primitive throws a TypeError in strict mode, before anything is painted and with no gradient completed |
| Drawing.GradientsInOrder | dist/cascadecanvas-1.0.4.js:1401-1456 | for a rectangle, the fill gradient is completed before the stroke gradient, and nothing throws |
| Drawing.DrawingTurnsWithElement | dist/cascadecanvas-1.0.4.js:1314-1346 | a rotated element and drawing without anchors both turn around the box's centre |
| Drawing.MissingResourceThrows | dist/cascadecanvas-1.0.4.js:1559-1563 | a sprite with no loaded resource throws a TypeError |
| Drawing.SingleTile | dist/cascadecanvas-1.0.4.js:1579-1594 | an unrepeated sprite is painted once, at the origin |
| Drawing.RepeatedSpriteReachesEdge | dist/cascadecanvas-1.0.4.js:1579-1594 | a sprite repeated across is painted from the origin up to the element's right edge |
| Drawing.RepeatedSpriteColumns | dist/cascadecanvas-1.0.4.js:1579-1594 | every column of a repeated sprite starts at a multiple of its width, inside the element |
| Elements.Then | dist/cascadecanvas-1.0.4.js:907-911 | running one step after another: an exception in the first stops the second |
| Elements.InvokeAllCalls | dist/cascadecanvas-1.0.4.js:907-911 | calling a list of constructors calls the functions before the first non-function, then throws a TypeError there |
| Elements.CallEach | dist/cascadecanvas-1.0.4.js:907-911 | the constructor loop computes exactly that run |
| Elements.InitialAttrsShape | dist/cascadecanvas-1.0.4.js:849-879 | a new element holds `classes` and `drawings`, an `id` when the specs name one, and the nine option fields when options are given |
| Elements.InitialAttrsOrdered | dist/cascadecanvas-1.0.4.js:849-879 | a new element's properties have distinct keys in a well-formed order |
| Elements.InitialAttrsRead | dist/cascadecanvas-1.0.4.js:849-854 | a new element's `classes` and `drawings` are empty objects |
| Elements.InitialAttrsId | dist/cascadecanvas-1.0.4.js:863-867 | a new element's `id` is the `#id` token of its specs, or undefined |
| Elements.InitialAttrsOptions | dist/cascadecanvas-1.0.4.js:869-879 | each option field is copied from truthy options, otherwise undefined |
| Elements.InheritRecordsClass | dist/cascadecanvas-1.0.4.js:901-919 | inheriting a new class records it under `classes`, as the registered class or an empty one |
| Elements.InheritSkipsHeld | dist/cascadecanvas-1.0.4.js:901 | a class the element already holds is skipped |
| Elements.InheritOnce | dist/cascadecanvas-1.0.4.js:896-922 | naming a class twice runs its constructors once |
| Elements.InheritLoop | dist/cascadecanvas-1.0.4.js:896-922 | the loop over class names computes the inheritance run and the new properties |
| Elements.InheritName | dist/cascadecanvas-1.0.4.js:899-921 | one class name's step of that loop |
| Elements.MergeKeepsObject | dist/cascadecanvas-1.0.4.js:997-1006 | merging into an element keeps it an object |
| Elements.MergeOutcomeScalar | dist/cascadecanvas-1.0.4.js:997-1006 | merging an object into an element overwrites the scalar properties it names and keeps the others |
| Elements.RemovedTriggersOnlyRemove | dist/cascadecanvas-1.0.4.js:1106-1108 | a removed element ignores every trigger except `remove` |
| Elements.TriggerCallsNamespace | dist/cascadecanvas-1.0.4.js:1104-1136 | triggering a named domain calls its handlers on the element, in binding order |
| Elements.HideAllHides | dist/cascadecanvas-1.0.4.js:1191-1195 | hiding all the drawings of a drawing table sets `hidden` on every drawing |
| Elements.HideArrayHides | dist/cascadecanvas-1.0.4.js:1191-1195 | hiding an array of drawings keeps its length and sets `hidden` on every item, where it stands in the array |
| Elements.HideEach | dist/cascadecanvas-1.0.4.js:1191-1195 | the loop over the drawings computes that result |
| Elements.ToggleHidesAndShows | dist/cascadecanvas-1.0.4.js:1197-1200 | the first drawing named ends hidden and the second shown |
| Elements.DrawFunctions | dist/cascadecanvas-1.0.4.js:1213-1220 | drawings that are functions are called on the element, in order |
| Elements.DrawingOrderSorted | dist/cascadecanvas-1.0.4.js:1211 | an element's drawings that are not `undefined` are drawn in descending `zIndex` order, by the library sort, then the `undefined` ones; each drawing is visited once, paired with the key it is held under; an array of drawings becomes the sorted array |
| Elements.DrawNullDrawingThrows | dist/cascadecanvas-1.0.4.js:1211 | a `null` drawing beside another drawing that is not `undefined` makes the sort throw a TypeError: nothing is drawn or called, and the element is unchanged |
| ObjectTools.SortEntriesValues | dist/cascadecanvas-1.0.4.js:379-420 | the sort that tracks where each value is held visits exactly the values `CC.sort` returns, `undefined` ones last; it sorts an array in place and leaves any other holder as it is |
| Elements.Element.constructor | dist/cascadecanvas-1.0.4.js:847-883 | a new element holds its initial properties, no events, and is not removed |
| Elements.Element.Inherit | dist/cascadecanvas-1.0.4.js:890-926 | a removed element does nothing; otherwise each class named is inherited in order |
| Elements.Element.Merge | dist/cascadecanvas-1.0.4.js:997-1006 | a removed element is unchanged; otherwise the object is merged into the element, and a throw keeps the writes made before it |
| Elements.MergeThrowKeepsEarlierWrites | dist/cascadecanvas-1.0.4.js:342-357 | example: with `b` holding 5, merging `{a: 1, b: {c: 1}}` throws and leaves `a` set to 1 |
| Elements.Element.Bind | dist/cascadecanvas-1.0.4.js:1031-1053 | unless removed, the handler is appended to its event and domain |
| Elements.Element.Unbind | dist/cascadecanvas-1.0.4.js:1064-1094 | unless removed, the domain is removed |
| Elements.Element.Trigger | dist/cascadecanvas-1.0.4.js:1104-1136 | the run of the element's handlers for the event |
| Elements.Element.HideAllDrawings | dist/cascadecanvas-1.0.4.js:1191-1195 | the element's drawings, held in an object or an array, are hidden one by one; a drawing that cannot take the write stops the loop, and the drawings before it stay hidden |
| Elements.Element.ToggleDrawings | dist/cascadecanvas-1.0.4.js:1197-1200 | one drawing is hidden and another shown |
| Elements.Element.Draw | dist/cascadecanvas-1.0.4.js:1205-1222 | the element's drawings are drawn in order, and an array of drawings is left sorted; a `null` drawing makes the sort throw first |
| Elements.Element.DrawSorted | dist/cascadecanvas-1.0.4.js:1213-1220 | the loop over the sorted drawings calls the functions and draws the rest, storing the anchors `drawShape` gives the element and each rotated drawing and the gradients it completes, and stops at a throw |
| Elements.StoreDrawingAnchorWrites | dist/cascadecanvas-1.0.4.js:1327-1331 | the anchor given to a rotated drawing is written into that drawing's entry of the element's drawing table, and nothing else in the table changes |
| Elements.StoreGradientWrites | dist/cascadecanvas-1.0.4.js:1602-1610 | a completed gradient is written into its style of the drawing's entry in the element's drawing table; the style's other properties, the drawing's other properties and the other entries stay as they were |
| Elements.DrawingAnchorSticks | dist/cascadecanvas-1.0.4.js:1324-1331 | a drawing's given anchor is truthy, so every later draw turns the drawing around it rather than around the element's current anchor |
| Registry.RemoveValue | dist/cascadecanvas-1.0.4.js:162-172 | removal keeps exactly the entries not holding the element |
| Registry.RemoveValueKeepsOrder | dist/cascadecanvas-1.0.4.js:165-169 | removal keeps the key order well formed and the values distinct |
| Registry.RemoveValueGet | dist/cascadecanvas-1.0.4.js:165-169 | after removal the element's key reads as missing; every other key reads as before |
| Registry.DeleteEvery | dist/cascadecanvas-1.0.4.js:165-169 | the loop that deletes every key holding the element computes that removal |
| Cascade.PausedTriggerIsQuiet | dist/cascadecanvas-1.0.4.js:257-259 | while paused, a global trigger does nothing |
| Cascade.FirePlainActions | dist/cascadecanvas-1.0.4.js:266-270 | plain handlers are called with the trigger's arguments, in order |
| Cascade.BecameFiresOnRisingEdge | dist/cascadecanvas-1.0.4.js:1141-1156 | a `became` watcher calls its action exactly when the element now matches and did not before; a non-function action throws then |
| Cascade.BecameOncePerEdge | dist/cascadecanvas-1.0.4.js:1141-1156 | it does not fire again while the element keeps matching |
| Cascade.ClickIsInclusive | dist/cascadecanvas-1.0.4.js:1176-1189 | `onClick` calls its action exactly when the click lies in the element's box, edges included |
| Cascade.KeysDownGuardCalls | dist/cascadecanvas-1.0.4.js:642-648 | the `onKeysDown` handler calls the action with the event exactly when the wanted keys are down |
| Cascade.DefAppends | dist/cascadecanvas-1.0.4.js:129-145 | `def` appends the constructor once per non-empty mention of a class |
| Cascade.HasClassesIff | dist/cascadecanvas-1.0.4.js:71-80 | an element passes the class test exactly when it holds every non-empty class named |
| Cascade.SelectFromIff | dist/cascadecanvas-1.0.4.js:61-86 | a selection scan never throws on well-formed elements and yields the filtered elements |
| Cascade.FilteredMembers | dist/cascadecanvas-1.0.4.js:61-86 | an element is selected exactly when it is registered, has the id if one is named, and has every class |
| Cascade.DrawOrderElements | dist/cascadecanvas-1.0.4.js:808-818 | the draw order holds each registered element |
| Cascade.DrawOrderIsSorted | dist/cascadecanvas-1.0.4.js:812 | the draw order is sorted by descending `zIndex`, stably |
| Cascade.DrawEachSkipsHidden | dist/cascadecanvas-1.0.4.js:1207-1209 | hidden elements draw nothing and change nothing |
| Cascade.DrawAll | dist/cascadecanvas-1.0.4.js:808-818 | the draw loop draws every element in order, with the anchors and gradients each draw stores, stopping at the first exception |
| Cascade.TriggerWith | dist/cascadecanvas-1.0.4.js:255-285 | a global trigger runs its planned handlers in order and throws where the plan fails |
| Cascade.FireEach | dist/cascadecanvas-1.0.4.js:266-282 | the handler loop fires each handler, stopping at an exception |
| Cascade.NewKeysDiffer | dist/cascadecanvas-1.0.4.js:118 | different counts give different keys, and an `#id` key is never a count |
| Cascade.SelectScan | dist/cascadecanvas-1.0.4.js:61-86 | the loop over the registry computes the selection |
| Cascade.World.constructor | dist/cascadecanvas-1.0.4.js:25-27 | the library starts with no classes, elements or events, running, with no key down |
| Cascade.World.New | dist/cascadecanvas-1.0.4.js:115-121 | a new element inherits its classes, then is registered under its id or the next count, unless inheriting threw |
| Cascade.World.Def | dist/cascadecanvas-1.0.4.js:129-145 | the constructor is added to each class named |
| Cascade.World.Clear | dist/cascadecanvas-1.0.4.js:150-157 | classes, elements, count and events are all emptied |
| Cascade.World.Select | dist/cascadecanvas-1.0.4.js:38-96 | the selector picks the registered elements it describes |
| Cascade.World.Remove | dist/cascadecanvas-1.0.4.js:162-172 | the element is marked removed, its `remove` handlers run, and it leaves the registry unless they threw |
| Cascade.World.Bind | dist/cascadecanvas-1.0.4.js:195-211 | the handler is appended to its global event and domain |
| Cascade.World.Unbind | dist/cascadecanvas-1.0.4.js:222-246 | the global domain is removed |
| Cascade.World.Trigger | dist/cascadecanvas-1.0.4.js:255-285 | the global handlers run as planned, or nothing while paused |
| Cascade.World.Pause | dist/cascadecanvas-1.0.4.js:792-794 | the loop stops running |
| Cascade.World.Play | dist/cascadecanvas-1.0.4.js:800-802 | the loop runs |
| Cascade.World.KeyDown | dist/cascadecanvas-1.0.4.js:575-579 | the key is marked down and `keydown` triggered; a missing event throws |
| Cascade.World.KeyUp | dist/cascadecanvas-1.0.4.js:571-574 | the key is released and `keyup` triggered; a missing event throws |
| Cascade.World.Click | dist/cascadecanvas-1.0.4.js:471-473 | `click` is triggered with the event |
| Cascade.World.RightClick | dist/cascadecanvas-1.0.4.js:475-478 | `rightclick` is triggered with the event |
| Cascade.World.OnKeysDown | dist/cascadecanvas-1.0.4.js:642-648 | a guarded `keydown` handler is bound |
| Cascade.World.OnKeysDownOnly | dist/cascadecanvas-1.0.4.js:655-661 | a guarded `keydown` handler is bound for exactly these keys |
| Cascade.World.OnKeysComboEnd | dist/cascadecanvas-1.0.4.js:668-693 | a guarded `keyup` handler is bound |
| Cascade.World.Became | dist/cascadecanvas-1.0.4.js:1141-1156 | an `enterframe` watcher is bound with a fresh flag that starts false |
| Cascade.World.While | dist/cascadecanvas-1.0.4.js:1161-1171 | an `enterframe` watcher is bound |
| Cascade.World.OnClick | dist/cascadecanvas-1.0.4.js:1176-1189 | a `click` watcher is bound |
| Cascade.World.DrawFrame | dist/cascadecanvas-1.0.4.js:808-818 | once `enterframe` has run without throwing, every element is drawn and the step counted unless a drawing threw |
| Cascade.World.Tick | dist/cascadecanvas-1.0.4.js:751-763 | one frame of the main loop: `enterframe` is triggered, all elements are drawn in draw order (storing the anchors and gradients drawing gives them), and the step counted, each only if nothing threw before |
| Collection.SortPermutesAndOrders | dist/cascadecanvas-1.0.4.js:1696-1702 | sorting a list permutes its elements into comparator order, keeping ties in order |
| Collection.DrawOrderIsZIndexSort | dist/cascadecanvas-1.0.4.js:812 | the draw order is the list sort by `zIndex`, inverted |
| Collection.FoundScan | dist/cascadecanvas-1.0.4.js:1707-1723 | the search loop keeps the matching elements in order |
| Collection.FoundIff | dist/cascadecanvas-1.0.4.js:1707-1723 | an element is found exactly when it is in the list and matches |
| Collection.FoundIdempotent | dist/cascadecanvas-1.0.4.js:1707-1723 | searching the result again changes nothing |
| Collection.ChangeEachKeeps | dist/cascadecanvas-1.0.4.js:1683-1691 | forwarding a change leaves elements outside the list, and removed ones, untouched |
| Collection.ChangeEachReachesAll | dist/cascadecanvas-1.0.4.js:1683-1691 | when nothing throws, every listed element receives the change |
| Collection.MergeEachCallsNothing | dist/cascadecanvas-1.0.4.js:1725-1733 | merging into every element calls no page code |
| Collection.ChangeAll | dist/cascadecanvas-1.0.4.js:1683-1733 | the loop applies the change to each element, stopping at an exception; an element whose merge threw keeps the writes made before the throw |
| Collection.RebindEachKeeps | dist/cascadecanvas-1.0.4.js:1743-1761 | binding through the list leaves other and removed elements' events alone |
| Collection.RebindEachReachesAll | dist/cascadecanvas-1.0.4.js:1743-1761 | every live element of the list gets the binding |
| Collection.RebindAll | dist/cascadecanvas-1.0.4.js:1743-1761 | the loop rebinds each element |
| Collection.RemoveEachUnregisters | dist/cascadecanvas-1.0.4.js:1735-1741 | removing through the list only drops registry entries; when nothing throws, every listed element is marked removed and is still registered only if it had already been removed before |
| Collection.BindEachAppends | dist/cascadecanvas-1.0.4.js:1773-1801 | binding watchers for each element appends them to the `root` list in list order |
| Collection.UndefinedSpecNeverFires | dist/cascadecanvas-1.0.4.js:1773-1791 | the list's `became` and `while` pass no spec, so their watchers never fire |
| Collection.UndefinedClickActionThrows | dist/cascadecanvas-1.0.4.js:1793-1801 | the list's `onClick` passes no action, so a click inside an element throws |
| Collection.WatchAll | dist/cascadecanvas-1.0.4.js:1773-1801 | the loop binds one watcher per element, in order |
| Collection.ElementList.constructor | dist/cascadecanvas-1.0.4.js:1645-1647 | a list holds the given elements and selection |
| Collection.ElementList.Each | dist/cascadecanvas-1.0.4.js:1652-1662 | the action is called on each element in order; a non-function throws at the first |
| Collection.ElementList.Eg | dist/cascadecanvas-1.0.4.js:1667-1669 | the element at an index, or nothing out of range |
| Collection.ElementList.AsArray | dist/cascadecanvas-1.0.4.js:1674-1676 | a fresh array of the elements |
| Collection.ElementList.Sort | dist/cascadecanvas-1.0.4.js:1696-1702 | the elements are sorted by the property |
| Collection.ElementList.Search | dist/cascadecanvas-1.0.4.js:1707-1723 | a new list of the matching elements; a spec that is not valid JSON text throws a SyntaxError |
| Collection.ElementList.Inherit | dist/cascadecanvas-1.0.4.js:1683-1691 | each element inherits the classes |
| Collection.ElementList.Merge | dist/cascadecanvas-1.0.4.js:1725-1733 | the object is merged into each element; a throwing merge keeps its earlier writes and ends the loop |
| Collection.ElementList.Remove | dist/cascadecanvas-1.0.4.js:1735-1741 | each element is removed |
| Collection.ElementList.Bind | dist/cascadecanvas-1.0.4.js:1743-1751 | each element gets the handler |
| Collection.ElementList.Unbind | dist/cascadecanvas-1.0.4.js:1753-1761 | each element loses the domain |
| Collection.ElementList.Trigger | dist/cascadecanvas-1.0.4.js:1763-1771 | applies the trigger method with the element as receiver and the callback's own empty arguments, so the event name is undefined and a live element throws a TypeError on `split`; removed elements do nothing |
| Collection.ElementList.Became | dist/cascadecanvas-1.0.4.js:1773-1781 | one `became` watcher per element, with fresh flags |
| Collection.ElementList.While | dist/cascadecanvas-1.0.4.js:1783-1791 | one `while` watcher per element |
| Collection.ElementList.OnClick | dist/cascadecanvas-1.0.4.js:1793-1801 | one click watcher per element |
| Collection.Query | dist/cascadecanvas-1.0.4.js:38-96 | `CC(selector)` gives the one element selected, or a list of all of them; `"*"` lists every element |
| SourceList.Kept | src/elementlist.js:89-103 | the search keeps exactly the members that match, and no more of them |
| SourceList.KeptAppend | src/elementlist.js:92-101 | searching a concatenation searches each part |
| SourceList.KeptIdempotent | src/elementlist.js:92-101 | searching the result again changes nothing |
| SourceList.AttemptedIff | src/elementlist.js:36-40 | a loop of the list runs to the end exactly when none of its calls throws; otherwise it stops right after the first call that throws and passes that exception on |
| SourceList.UnbindReleasesEachOnce | src/elementlist.js:133-151 | the unbinder returned by `bind` releases the members' handles in member order, each at most once, until a release throws; when none throws, every handle is released |
| SourceList.UnbindAll | src/elementlist.js:144-148 | the unbinder's loop calls each handle in order and stops at the first release that throws |
| SourceList.InstalledLookup | src/elementlist.js:19-29 | installing `CC.fn` copies every function it holds onto the list and keeps the other properties |
| SourceList.OwnProperties | src/elementlist.js:9-29 | a new list holds `selection`, `length` and its methods, unless `CC.fn` overrides one |
| SourceList.SortKeepsMembers | src/elementlist.js:78-84 | sorting permutes the members into comparator order |
| SourceList.List.constructor | src/elementlist.js:9-13 | a new list holds its members and selection and has `CC.fn` installed |
| SourceList.List.InstallGlobals | src/elementlist.js:19-29 | the loop over `CC.fn` installs each of its functions |
| SourceList.List.Each | src/elementlist.js:34-44 | the action is applied to each member in order and the list returned; a non-function throws at the first |
| SourceList.List.Forward | src/elementlist.js:65-249 | the shared loop calls the method on each member in order and collects the results; a member's call that throws ends the loop and the list method |
| SourceList.List.Eg | src/elementlist.js:49-51 | the member at an index, or nothing out of range |
| SourceList.List.AsArray | src/elementlist.js:56-58 | a fresh array of the members |
| SourceList.List.Sort | src/elementlist.js:78-84 | the members are sorted by the property and the list returned |
| SourceList.List.Scan | src/elementlist.js:92-101 | asks each member whether it matches and keeps those that do, stopping at a `matches` call that throws |
| SourceList.List.Search | src/elementlist.js:89-105 | a new list of the matching members, with a selection text extended by the query; unparsable text throws, and so does a member's `matches` before it |
| SourceList.List.Inherit | src/elementlist.js:65-73 | each member inherits, and the list is returned when no member's call throws; a call that throws stops the loop at that member |
| SourceList.List.Merge | src/elementlist.js:107-115 | each member merges, and the list is returned when no member's call throws; a call that throws stops the loop at that member |
| SourceList.List.Remove | src/elementlist.js:117-123 | each member is removed when no member's call throws; a call that throws stops the loop at that member |
| SourceList.List.RemoveClass | src/elementlist.js:125-131 | each member loses the class when no member's call throws; a call that throws stops the loop at that member |
| SourceList.List.Bind | src/elementlist.js:133-151 | each member binds, and an unbinder of all their results is returned when no member's call throws; a call that throws stops the loop at that member |
| SourceList.List.Unbind | src/elementlist.js:153-161 | each member unbinds, and the list is returned when no member's call throws; a call that throws stops the loop at that member |
| SourceList.List.Trigger | src/elementlist.js:163-171 | each member is triggered without the given arguments, and the list is returned when no member's call throws; a call that throws stops the loop at that member |
| SourceList.List.Became | src/elementlist.js:173-191 | each member watches, and an unbinder is returned when no member's call throws; a call that throws stops the loop at that member |
| SourceList.List.While | src/elementlist.js:193-211 | each member watches, and an unbinder is returned when no member's call throws; a call that throws stops the loop at that member |
| SourceList.List.OnClick | src/elementlist.js:213-231 | each member watches clicks, and an unbinder is returned when no member's call throws; a call that throws stops the loop at that member |
| SourceList.List.HideAllLayers | src/elementlist.js:234-240 | each member hides its layers when no member's call throws; a call that throws stops the loop at that member |
| SourceList.List.ToggleLayers | src/elementlist.js:243-249 | each member toggles the two layers when no member's call throws; a call that throws stops the loop at that member |

## Left out

- Drawing on the canvas, the DOM, timers, `requestAnimationFrame`, `loadResources` and the event listeners' installation: the model records what would be painted and which events are triggered, not the pixels.
- `rotatePoint` and the trigonometry of rotation and the canvas transform: these are floating-point operations. Numbers are modelled as exact reals, and `NaN` as a missing number.
- Gradients: `createLinearGradient` writing the default `start` and `end` into the drawing's gradient object, and its TypeError on a truthy primitive, are modelled. The canvas gradient it builds, its colour stops, and the exceptions the canvas raises for non-finite coordinates or unreadable colours are not. A gradient that is an array or a function stops as unmodelled, because properties written onto those are not modelled.
- FrameIndexCounts, FrameIndexPeriodic, FrameIndexHolds: these hold only where the quotient `CC.step / delay` prints in plain decimal (zero, or at least 1e-6 and below 1e21 in size). Outside that range `parseInt` reads the exponent form and gets the first significant digit, as TinyQuotientShowsDigit states, and the frames no longer count whole delays.
- Drawing.FrameIndex: the first significant digit is that of the exact quotient. A double that rounds across a power of ten when printed can give a different digit in JavaScript.
- LexLess: strings are compared by code point. JavaScript compares UTF-16 code units, so a character above U+FFFF sorts before one in U+E000 to U+FFFF there and after it in the model.
- ObjectTools.SortValues, Elements.DrawOutcome: a throwing comparator leaves the array unchanged, as the current ECMA-262 definition of `Array.prototype.sort` has it: the items are sorted as a list and written back only at the end. Older engines that sorted in place could leave the array partly sorted.
- The UMD wrapper that exports `CC`.
- `JSON.parse` in the list search is a parameter (`parsed`): the text it would accept is not modelled.
- Converting a number to a string is modelled only for the whole, non-negative counts used as registry keys.
- Sort keys are numbers and booleans. Other property values compare as missing, so string and object keys are not ordered as JavaScript would order them.
- JsValues.Prop, Cascade.DefAppends, Events.BindAppends, Events.BindKeepsTable: a property read sees only an object's own properties, and the class, event and element-event tables are maps, so names that objects inherit from `Object.prototype` (`toString`, `valueOf`, `constructor`, `hasOwnProperty` and the rest) read as missing. In JavaScript they read as the inherited functions. Hence:
  - `CC.def("toString", f)` throws a TypeError on `.constructors.push` in JavaScript; in the model it appends `f`.
  - `CC.bind("jump.constructor", f)` throws a TypeError on `push` in JavaScript, whether or not `jump` was bound before; in the model it appends `f`.
  - `CC("toString")` selects every element in JavaScript, since each `classes` object inherits `toString`; in the model it selects none.
  - `el.inherit("valueOf")` skips the class in JavaScript; in the model it records it and runs its constructors.
  - Event names are read the same way, so binding, unbinding and triggering an event named after one of these functions also differ.
  Enumerable properties added to prototypes are likewise not seen by `for...in`.
- Page code that the library calls (constructors, handlers, drawing functions, actions) is recorded as a call in the run. It is assumed to return and not to change the library's state.
- The `src/` element class and the `src/` version of `matches` are not part of this model. The `src/` list's members are opaque identities in `SourceList`, whether a member matches is given as a set, and so are the calls on members (and releases of their handles) that throw.
- SourceList.SortedMembers: the `src/` list's sort is taken to be the stable `CC.sort` of `dist/cascadecanvas-1.0.4.js`, since the `src/` sort is not part of this model; sort keys are given as a function of the member.
- SourceList.List.Each: the broadcasts use the list's own `each`. An override of `each` from `CC.fn` is recorded among the list's properties but is not what the broadcasts follow.
- SourceList.List.Search: the list's `selection` is a string or missing; other selections are not modelled.
- A dispatcher that calls a list's methods through its property map is not modelled. The properties are recorded, and the methods are called directly.
- `CC.screen`, the canvas size and `CC.step` as read by page code are left out, except for the step counter used to pick sprite frames.
- NaNComparisons: the strings `Infinity`, `+Infinity` and `-Infinity` convert to NaN in the model, because numbers are reals; JavaScript reads them as infinite numbers, which compare accordingly.
- StringToNumber: `Infinity` is the one form of `Number`'s string grammar not modelled (see the line above); decimals, exponents and `0x`, `0o`, `0b` literals are.
- ToPrimitive: an array or a function compared with `<`, `>`, `<=` or `>=` is taken as NaN. JavaScript compares its text (an array's joined items, a function's source), so `[5] < "6"` holds there and not in the model.
- LooseEqualsString: an array or a function is never `==` to a string in the model. In JavaScript `[1] == "1"` holds, through the array's joined text.
- ToUpper: only the letters a to z are upper-cased. JavaScript's `toUpperCase` also maps other letters, such as `é` to `É` and `ß` to `SS`.
- Elements.MergeOutcome, Matching.Matches: the thirteen element methods (`inherit`, `matches`, `merge`, `remove`, `bind`, `unbind`, `trigger`, `became`, `while`, `onClick`, `hideAllDrawings`, `toggleDrawings`, `draw`) are not among the element's properties. A merge that names one stops as unmodelled, where JavaScript overwrites the method. A spec that names one is checked against a missing property: `matches({remove: "!=0"})` is false in the model and true in JavaScript.
- Elements.InitialAttrs, Elements.InheritName, Elements.StoreDrawingAnchor, Matching.LiteralNeedsStrictEquality: objects are values, so shared references are not modelled. This covers an `opts.anchor` object shared by the elements built with it, the class record `inherit` stores being the live entry of `CC.classes`, and a drawing's anchor being the element's own anchor object. A later write through one holder is not seen through the other. Likewise `===` holds in JavaScript for the same array object, which the model does not tell apart from a copy.
- ObjectTools.SetProp: writing a named property onto an array or a function, or an index beyond an array's end, is not modelled. A merge or write that needs one stops as unmodelled.
