# address-formatter: a verified model of the formatting pipeline

This project models the per-request pipeline of microg/address-formatter, a
Java library that turns the address components a geocoder produces into a
country-conventional postal address driven by per-country templates, and
proves properties of the model. The entry point `formatAddress` takes a map of address components,
such as `road`, `city` and `country_code`, and returns a multi-line postal
address. It runs these stages:

1. **Copy.** `ensureValidMap` copies the caller's map and turns each null
   into the text `"null"`.
2. **Sanitize.** `sanitizeComponents` runs:
   - `determineCountryCode`: uppercasing, `UK`→`GB`, the `use_country`
     redirect, and the NL Caribbean overrides;
   - the `district` rename;
   - the alias fill-in;
   - `sanityCleaning`: postcode shapes and URL values;
   - `fixCountry`: the numeric-country swap and the US and DC fix-ups.
3. **Prepare.** `prepareRendering` picks the country's template, then runs
   the rewrite rules (`applyReplacements`), the state and county code
   lookups, and `configureAttention`. That last step joins the values of
   unknown components into `attention`.
4. **Choose and render.** `chooseAddressTemplate` falls back when both
   `road` and `postcode` are missing. `renderTemplate` substitutes
   `{{{k}}}`/`{{k}}`, resolves `{{#first}} a || b {{/first}}` blocks and
   deletes leftover tokens.
5. **Clean.** `clean` collapses white space, strips separators, drops blank
   and repeated lines, and de-duplicates comma segments, with "new york"
   exempt. It runs once after rendering and again after the template's
   postformat rules.

`guessName` returns `attention` after preparation. `guessTypeCandidates`
returns the unknown keys after sanitizing. `Template.parse` builds the
immutable template record from the values the YAML loader produces.

Modules:
- `Wrappers`: Option, Result and the runtime failures.
- `JavaString`: the `String` operations the source relies on, each stated
  with Java's semantics.
- `Components`: the mutable components map, as class `ComponentMap` with
  its value `Entries`.
- `Templates`: `Template.java`.
- `Configuration`: the immutable loaded configuration.
- `Country`, `Sanitizer`, `Enrichment`, `Selector`, `Renderer`, `Cleaner`:
  one each for the pipeline stages.
- `Formatter`: the entry points.

Modelling choices:
- **Methods and functions.** Each method that rewrites the map in place is a
  `ComponentMap` method. It is proved equal to a function on `Entries`, and
  the source's promises are proved about that function.
- **Exceptions.** Exceptions the Java code can raise are `Err` results:
  - a NullPointerException on an absent `country_code` in `fixCountry`;
  - a `state` removed by the swap and then matched;
  - a `change_country` naming an absent component;
  - an `add_component` without `=`;
  - a `{{#first}}` segment with nothing after `{{/first}}`;
  - a template made of `{{#first}}` markers only;
  - a null template text;
  - the null rule list of a string-form template.
- **Configured regexes.** The configuration's rewrite rules go through an
  uninterpreted `replaceAll` function carried by the configuration.
- **Fixed regexes.** The source's fixed regular expressions are written out
  as scanners. These are the three collapses of `clean`, the two token
  deletions, the postcode shapes, and the US and DC patterns.

Behaviour of the code that is easy to miss; the model follows it:
- **United States.** The code tests the whole `state` value against
  `^united states` with `matches()`, so only the exact text (any case)
  becomes `US`. A value that merely begins with "united states" is left
  alone (Formatter.java:323-326).
- **Collapses.** `clean` replaces white space before a line feed by the line
  feed alone, not by a space. It also runs a third collapse, `,\s*,`→`,`
  (line 169).
- **Idempotence.** `clean` is not idempotent, and its output can repeat a
  line. `clean("a\na, a")` is `"a\na"`, and cleaning that gives `"a"`. A
  line is compared with the already emitted de-duplicated lines before its
  own segments are de-duplicated. Neither property is claimed here.
- **Exceptions.** Formatting can throw even with a valid configuration, on
  the paths listed above. For example, a numeric `country` with a `state`
  throws a NullPointerException when `country_code` is absent, or when it
  is `US`, since the swap removed the `state` that the US test then reads.
- **Lengths.** `String.length()` counts UTF-16 code units, so a character
  outside the Basic Multilingual Plane counts twice in the 20-character
  postcode limit (line 233) and in the two-letter country code test
  (line 340).
- **Leftover tokens.** Each token deletion is a single left-to-right
  `replaceAll` pass (lines 206 and 227). Deleting a token can join the text
  around it into a new complete token, which stays: `"{{}{{}}}"` becomes
  `"{{}}"`.

## Model

| member | source | states |
|---|---|---|
| Templates.ParsePair | src/main/java/org/microg/address/Template.java:113-115 | a rule is built exactly from a list whose first two elements are strings, as (from = element 0, to = element 1) |
| Templates.NumberInRuleFails | src/main/java/org/microg/address/Template.java:113-115 | a number where a rule expects a string makes the rule fail, as the cast to String does |
| Templates.ParseAll | src/main/java/org/microg/address/Template.java:91-95 | every element of the list becomes a rule, same count and order; any element that is not a string pair makes the whole list fail |
| Templates.GetReplace | src/main/java/org/microg/address/Template.java:83-102 | absent key: empty list; list of pairs: one rule per element; flat two-string list: a single rule; every other shape: empty list (a failure or a non-empty list only arises from the two accepted shapes) |
| Templates.Parse | src/main/java/org/microg/address/Template.java:66-81 | a string gives a template with only the address template set; a value that is neither string nor map leaves every field null; a map never leaves the rule lists null, and leaves the address template null exactly when its key is absent |
| Templates.RulesRoundTrip | src/main/java/org/microg/address/Template.java:88-95 | rules written as a list of [from, to] pairs read back as the same rules |
| Templates.ParseToYaml | src/main/java/org/microg/address/Template.java:70-78 | parsing the map written from a map-form template gives back that template, field by field |
| Templates.StringFieldRead | src/main/java/org/microg/address/Template.java:72-77 | a text field written into the map reads back as the same text, or null |
| Templates.RulesFieldRead | src/main/java/org/microg/address/Template.java:75-78 | a rule-list field written into the map reads back as the same rules |
| Country.VarName | src/main/java/org/microg/address/Formatter.java:347-349 | the variable pattern matches exactly when the value has a '$' and no line terminator |
| Country.NewCountry | src/main/java/org/microg/address/Formatter.java:346-351 | a change_country without a variable is used as is; it fails exactly when its variable names an absent component |
| Country.WithAddedComponent | src/main/java/org/microg/address/Formatter.java:354-357 | no add_component: map unchanged; fails exactly when the value has fewer than two '='-fields; otherwise the key before '=' is present afterwards |
| Country.Redirected | src/main/java/org/microg/address/Formatter.java:342-358 | without use_country the code and map are unchanged; with it the code becomes use_country |
| Country.RedirectedFrame | src/main/java/org/microg/address/Formatter.java:342-358 | the redirect removes no key and changes none but `country` and its add_component key |
| Country.CaribbeanOverride | src/main/java/org/microg/address/Formatter.java:360-375 | NL with state "Curaçao" (exact), "sint maarten" or "Aruba" (any case) gives CW, SX or AW and sets country to the territory's name; all other inputs are left alone |
| Country.Determined | src/main/java/org/microg/address/Formatter.java:337-376 | null with the map unchanged exactly when the code is absent or, once uppercased, not two UTF-16 code units long; UK gives GB at once; a code neither UK nor NL without a redirect is the uppercased code; a redirect to a code other than NL yields use_country; only a redirect can fail |
| Country.SupplementaryCodeResolved | src/main/java/org/microg/address/Formatter.java:339-341 | a code of one character outside the Basic Multilingual Plane is two UTF-16 units long, so it passes the test and is resolved |
| Country.DeterminedFrame | src/main/java/org/microg/address/Formatter.java:337-376 | resolution removes no key and changes none but `country` and the redirect's add_component key |
| Country.Redirect | src/main/java/org/microg/address/Formatter.java:342-358 | the in-place redirect leaves the map and code that Redirected specifies, or its failure |
| Country.OverrideCaribbean | src/main/java/org/microg/address/Formatter.java:360-375 | the in-place NL tests give the code and map of CaribbeanOverride |
| Country.DetermineCountryCode | src/main/java/org/microg/address/Formatter.java:337-376 | the method returns the code and leaves the map that Determined specifies, or its failure |
| Sanitizer.MovedDistrict | src/main/java/org/microg/address/Formatter.java:114-118 | `district` moves to neighbourhood (small-district countries) or state_district exactly when present and the target is absent; otherwise nothing changes |
| Sanitizer.Relabelled | src/main/java/org/microg/address/Formatter.java:112-118 | storing the resolved code and renaming `district` keep the map well formed and change no key but country_code, district, neighbourhood and state_district |
| Sanitizer.FilledKeeps | src/main/java/org/microg/address/Formatter.java:119-128 | the alias fill-in keeps every present key and value and adds only canonical names |
| Sanitizer.FilledOther | src/main/java/org/microg/address/Formatter.java:119-128 | a key that is no canonical name keeps its value or absence |
| Sanitizer.FilledFirstAlias | src/main/java/org/microg/address/Formatter.java:119-128 | an absent canonical name ends with the value of its first alias, in declared order, present in the input |
| Sanitizer.FindAlias | src/main/java/org/microg/address/Formatter.java:121-126 | the inner loop returns the first present alias's value |
| Sanitizer.DigitPairShape | src/main/java/org/microg/address/Formatter.java:233 | the `\d+;\d+` test holds exactly for digits, a ';', digits |
| Sanitizer.ZipPairCut | src/main/java/org/microg/address/Formatter.java:235-236 | a value matching `^(\d{5}),\d{5}.*` is cut to its first five digits |
| Sanitizer.DroppedUrlsSpec | src/main/java/org/microg/address/Formatter.java:239-242 | exactly the entries whose value holds http:// or https:// are removed; the others keep their values |
| Sanitizer.NotYetDropped | src/main/java/org/microg/address/Formatter.java:239-242 | a key the loop has not reached yet is still present |
| Sanitizer.DropUrls | src/main/java/org/microg/address/Formatter.java:239-242 | the in-place loop over a snapshot of the keys gives DroppedUrls of the old map |
| Sanitizer.SanityCleanedSpec | src/main/java/org/microg/address/Formatter.java:231-243 | no value left holds a URL; other keys kept exactly when URL-free; a postcode over 20 UTF-16 code units or a digit pair is removed, a ZIP pair cut to five digits, any other left as is |
| Sanitizer.SupplementaryPostcodeDropped | src/main/java/org/microg/address/Formatter.java:233 | a postcode of more than ten characters outside the Basic Multilingual Plane is over 20 UTF-16 units and is removed |
| Sanitizer.CleanPostcode | src/main/java/org/microg/address/Formatter.java:232-237 | the in-place postcode test gives PostcodeCleaned of the old map |
| Sanitizer.SanityCleaning | src/main/java/org/microg/address/Formatter.java:231-243 | the in-place loop over a snapshot of the keys gives SanityCleaned of the old map |
| Sanitizer.ParseInt | src/main/java/org/microg/address/Formatter.java:317 | an accepted value is non-empty and within the 32-bit range |
| Sanitizer.Swapped | src/main/java/org/microg/address/Formatter.java:316-321 | a country that parses as an integer takes the state's value and the state is removed; otherwise nothing changes; no other key changes |
| Sanitizer.USFixed | src/main/java/org/microg/address/Formatter.java:322-333 | "united states" (whole value, any case) becomes US; a Washington DC spelling sets state_code DC, state District of Columbia, city Washington; other states unchanged; only those keys change |
| Sanitizer.FixedCountry | src/main/java/org/microg/address/Formatter.java:314-335 | without both country and state nothing changes; it fails on an absent country_code, and on a US address whose country was swapped; otherwise it is the swap, then the US fix-ups for US; only country, state, state_code and city can change |
| Sanitizer.FixCountry | src/main/java/org/microg/address/Formatter.java:314-335 | the in-place fix-up reaches FixedCountry of the old map, or its failure |
| Sanitizer.CleanedFixedKeeps | src/main/java/org/microg/address/Formatter.java:231-243 | a URL-free key that neither the postcode test nor fixCountry writes keeps its value through both |
| Sanitizer.SanitizedKeeps | src/main/java/org/microg/address/Formatter.java:110-132 | a URL-free, non-canonical key that no sanitizer step writes passes sanitizeComponents with its value |
| Sanitizer.MoveDistrict | src/main/java/org/microg/address/Formatter.java:114-118 | the in-place rename gives MovedDistrict of the old map |
| Sanitizer.FillFromAliases | src/main/java/org/microg/address/Formatter.java:119-128 | the in-place loop over the definitions gives Filled of the old map |
| Sanitizer.SanitizeComponents | src/main/java/org/microg/address/Formatter.java:110-132 | the in-place sanitizer reaches Sanitized of the old map, or its failure |
| Enrichment.Replaced | src/main/java/org/microg/address/Formatter.java:300-312 | the rules never add or remove a key and keep the order; a null rule list fails exactly when the map is non-empty; with a rule list every value is rewritten by the rules in order, per component |
| Enrichment.RewrittenAppend | src/main/java/org/microg/address/Formatter.java:302-310 | the rules run in list order: a split list runs as its first part followed by its second |
| Enrichment.LiteralRule | src/main/java/org/microg/address/Formatter.java:303-306 | a rule "<component>=<literal>" sets the value to `to` exactly when the value equals the literal, else leaves it |
| Enrichment.OtherComponentRule | src/main/java/org/microg/address/Formatter.java:303-308 | a rule "<other>=<literal>" is applied to this component as a regex substitution |
| Enrichment.RewriteComponent | src/main/java/org/microg/address/Formatter.java:302-310 | the inner loop rewrites one component by the rules in order and touches nothing else |
| Enrichment.ApplyReplacements | src/main/java/org/microg/address/Formatter.java:300-312 | the in-place loop reaches Replaced of the old map, or its failure |
| Enrichment.CodeScanSpec | src/main/java/org/microg/address/Formatter.java:274-280 | the scan writes only the code, writes it exactly when some row lists the name, and what it writes is such a row's code |
| Enrichment.WithCodeSpec | src/main/java/org/microg/address/Formatter.java:266-281 | acts only when the code is absent and name and country_code present; then country_code is uppercased, the code set exactly when that country's table lists the uppercased name (to such a row's code), nothing else changes |
| Enrichment.AddCode | src/main/java/org/microg/address/Formatter.java:266-281 | the in-place lookup gives WithCode of the old map |
| Enrichment.AddStateCode | src/main/java/org/microg/address/Formatter.java:266-281 | the state-code lookup, on the state table |
| Enrichment.AddCountyCode | src/main/java/org/microg/address/Formatter.java:283-298 | the county-code lookup, on the county table |
| Enrichment.UnknownKeysSpec | src/main/java/org/microg/address/Formatter.java:245-252 | exactly the keys that are neither canonical names nor aliases are listed, each once |
| Enrichment.FindUnknownComponents | src/main/java/org/microg/address/Formatter.java:245-252 | the loop returns UnknownKeys of the map's keys in order |
| Enrichment.AttentionNonEmpty | src/main/java/org/microg/address/Formatter.java:137-141 | with a non-empty first value the attention text is non-empty |
| Enrichment.AttentionIsJoin | src/main/java/org/microg/address/Formatter.java:137-141 | with non-empty values the attention text is the values joined by ", " |
| Enrichment.BuildAttention | src/main/java/org/microg/address/Formatter.java:137-141 | the StringBuilder loop gives the attention text of the unknown keys' values in order |
| Enrichment.WithAttention | src/main/java/org/microg/address/Formatter.java:134-144 | no unknown key: map unchanged; otherwise `attention` is put with the unknown keys' values in order |
| Enrichment.ConfigureAttention | src/main/java/org/microg/address/Formatter.java:134-144 | the in-place step gives WithAttention of the old map |
| Selector.SelectTemplate | src/main/java/org/microg/address/Formatter.java:106-108 | a known code selects its template; a null or unknown code selects "default" |
| Selector.MinimalComponents | src/main/java/org/microg/address/Formatter.java:254-264 | the counting loop is true exactly when road or postcode is present |
| Selector.ChosenText | src/main/java/org/microg/address/Formatter.java:146-156 | with road or postcode the address template; otherwise the template's fallback, else default's fallback, else the address template |
| Selector.ChosenTemplate | src/main/java/org/microg/address/Formatter.java:146-158 | fails exactly when the chosen text is null; otherwise every "\r\n" becomes "\n" |
| Selector.ChooseAddressTemplate | src/main/java/org/microg/address/Formatter.java:146-158 | the method returns ChosenTemplate |
| Selector.NoCrBefore | src/main/java/org/microg/address/Formatter.java:157 | before the first "\r\n" a text whose carriage returns all start "\r\n" has none |
| Selector.CrLfNormalized | src/main/java/org/microg/address/Formatter.java:157 | a text whose carriage returns all start "\r\n" has none left |
| Renderer.DeleteTokens | src/main/java/org/microg/address/Formatter.java:206 | deleting tokens never lengthens the text |
| Renderer.DeleteTokensPlain | src/main/java/org/microg/address/Formatter.java:227 | text without '{' has no token to delete |
| Renderer.DeleteTokensTokenFree | src/main/java/org/microg/address/Formatter.java:206 | text in which no token starts at any position is left as it is |
| Renderer.DeleteTokensSingle | src/main/java/org/microg/address/Formatter.java:206 | in text without other opening braces, a token of n braces, text without '}' and n braces is deleted and the rest kept |
| Renderer.DeleteTokensCanLeaveToken | src/main/java/org/microg/address/Formatter.java:227 | a single pass turns "{{}{{}}}" into "{{}}", a complete token left behind |
| Renderer.PickAlternative | src/main/java/org/microg/address/Formatter.java:214-220 | the loop returns the first alternative whose trim is non-empty, trimmed, or null |
| Renderer.FirstNonBlankSpec | src/main/java/org/microg/address/Formatter.java:214-222 | a picked alternative is trimmed and non-empty; none is picked exactly when all are blank |
| Renderer.Substitute | src/main/java/org/microg/address/Formatter.java:201-204 | the loop gives the substitution over the map's keys in order |
| Renderer.AssembledFails | src/main/java/org/microg/address/Formatter.java:210-224 | a failing block fails the whole assembly with its error |
| Renderer.AssembledStep | src/main/java/org/microg/address/Formatter.java:210-224 | each further segment appends its block to the text so far, or fails |
| Renderer.RenderBlock | src/main/java/org/microg/address/Formatter.java:212-223 | one segment's contribution is Block of the segment, including both failures |
| Renderer.AssembleBlocks | src/main/java/org/microg/address/Formatter.java:206-225 | the block loop gives Blocks of the text, including both failures |
| Renderer.RenderTemplate | src/main/java/org/microg/address/Formatter.java:200-229 | the method gives Render of the map and template |
| Renderer.RenderPlain | src/main/java/org/microg/address/Formatter.java:200-229 | a template without '{' renders as itself |
| Renderer.RenderedAfterSubstitution | src/main/java/org/microg/address/Formatter.java:200-229 | once substitution leaves no '{', rendering is the substituted text |
| Renderer.SubstitutedToken | src/main/java/org/microg/address/Formatter.java:201-204 | over keys containing k, "{{k}}" in brace-free text is replaced by k's value; over other keys it is left |
| Renderer.RenderSubstitutes | src/main/java/org/microg/address/Formatter.java:200-229 | a present component's value replaces its "{{k}}" token in the rendered text |
| Renderer.BlockPicks | src/main/java/org/microg/address/Formatter.java:212-223 | a block contributes its first non-blank alternative, trimmed, then the text after "{{/first}}" |
| Renderer.FirstBlock | src/main/java/org/microg/address/Formatter.java:208-224 | the text before "{{#first}}" is kept and the block is replaced by its pick followed by the text after it |
| Cleaner.NewlineMatch | src/main/java/org/microg/address/Formatter.java:169 | a match of `\s*\n` is white space ending in a line feed |
| Cleaner.CommasMatch | src/main/java/org/microg/address/Formatter.java:169 | a match of `,\s*,` is two commas around white space |
| Cleaner.CollapsedCount | src/main/java/org/microg/address/Formatter.java:169 | the three collapses never add a line break |
| Cleaner.StripLine | src/main/java/org/microg/address/Formatter.java:175-178 | the trim-and-strip loops give Stripped of the line |
| Cleaner.StrippedShape | src/main/java/org/microg/address/Formatter.java:175-178 | a stripped line is trimmed, neither starts nor ends with ',' or '-', and uses only characters of the raw line |
| Cleaner.NewYorkKey | src/main/java/org/microg/address/Formatter.java:184-186 | the exemption holds exactly when the trimmed, lower-cased key is "new york" |
| Cleaner.DedupSegments | src/main/java/org/microg/address/Formatter.java:180-191 | the segment loop gives Dedup of the segments |
| Cleaner.DedupSeen | src/main/java/org/microg/address/Formatter.java:182-189 | the seen set holds exactly the keys of the segments so far, "new york" aside |
| Cleaner.SkipIffNotKept | src/main/java/org/microg/address/Formatter.java:184 | the loop skips a segment exactly when it does not survive |
| Cleaner.DedupIsJoin | src/main/java/org/microg/address/Formatter.java:180-191 | with a non-empty first segment the line is its surviving segments joined by "," |
| Cleaner.KeptFirst | src/main/java/org/microg/address/Formatter.java:183-190 | the first segment always survives |
| Cleaner.KeptDistinct | src/main/java/org/microg/address/Formatter.java:183-190 | no two surviving segments share a trimmed, lower-cased key unless it is "new york" |
| Cleaner.KeptComplete | src/main/java/org/microg/address/Formatter.java:183-190 | every key of the line survives in some segment |
| Cleaner.DedupLineIsJoin | src/main/java/org/microg/address/Formatter.java:180-193 | a stripped line contributes its surviving comma segments joined by "," |
| Cleaner.Clean | src/main/java/org/microg/address/Formatter.java:168-198 | the method gives Cleaned of the input |
| Cleaner.CleanFoldShape | src/main/java/org/microg/address/Formatter.java:174-195 | the builder holds one line break per emitted line, each line starting with a kept character; never more lines than input lines |
| Cleaner.AppendLineShape | src/main/java/org/microg/address/Formatter.java:193 | appending a non-empty line that trim keeps at its start, and a line break, keeps the builder's shape and adds one line break |
| Cleaner.CleanedShape | src/main/java/org/microg/address/Formatter.java:168-198 | the result is trimmed and has no empty or blank line |
| Cleaner.CleanedLineCount | src/main/java/org/microg/address/Formatter.java:168-198 | the result never has more line breaks than the input |
| Cleaner.CleanSkipsSeenLine | src/main/java/org/microg/address/Formatter.java:179 | a line that strips to an already emitted line is dropped |
| Cleaner.SeenGrows | src/main/java/org/microg/address/Formatter.java:192 | emitted lines are never forgotten |
| Cleaner.CleanKeepsLines | src/main/java/org/microg/address/Formatter.java:174-195 | every non-blank input line is emitted in its de-duplicated form or equals a line emitted before it |
| Cleaner.EmittedFromLines | src/main/java/org/microg/address/Formatter.java:174-195 | every emitted line is the de-duplicated form of a non-blank input line |
| Formatter.ValidCopy | src/main/java/org/microg/address/Formatter.java:160-166 | the copy has the same keys; a value is kept, a null becomes "null" |
| Formatter.EnsureValidMap | src/main/java/org/microg/address/Formatter.java:160-166 | the method returns a fresh map holding ValidCopy of the input, so the caller's map is never changed |
| Formatter.Enriched | src/main/java/org/microg/address/Formatter.java:95-101 | the steps before the attention keep the map well formed |
| Formatter.Prepared | src/main/java/org/microg/address/Formatter.java:95-104 | configureAttention never fails: preparation fails exactly when the earlier steps do |
| Formatter.PrepareRendering | src/main/java/org/microg/address/Formatter.java:95-104 | the in-place steps give the template and map of Prepared, or its failure |
| Formatter.Formatted | src/main/java/org/microg/address/Formatter.java:82-93 | formatting succeeds exactly when preparation, the template choice and rendering succeed and the template has a postformat rule list; the result is the rendered text cleaned, rewritten by the postformat rules in order, and cleaned again |
| Formatter.Postformat | src/main/java/org/microg/address/Formatter.java:88-90 | the loop applies each postformat rule in list order |
| Formatter.FormatAddress | src/main/java/org/microg/address/Formatter.java:82-93 | the method, on a copy of the input, gives Formatted: clean, the postformat rules in order, clean |
| Formatter.FormattedShape | src/main/java/org/microg/address/Formatter.java:82-93 | a formatted address is trimmed and has no empty or blank line |
| Formatter.GuessName | src/main/java/org/microg/address/Formatter.java:69-74 | the method returns the attention component after preparation of a copy |
| Formatter.Candidates | src/main/java/org/microg/address/Formatter.java:76-80 | fails exactly when sanitizing does; otherwise lists, each once, exactly the unknown keys left |
| Formatter.GuessTypeCandidates | src/main/java/org/microg/address/Formatter.java:76-80 | the method, on a copy of the input, gives Candidates |
| Formatter.CandidateSurvives | src/test/java/org/microg/address/FormatterTest.java:48-51 | an unknown, URL-free component that no sanitizer step writes is among the candidates |
| Formatter.AttentionSingleUnknown | src/main/java/org/microg/address/Formatter.java:134-144 | with one unknown component, attention is its value |
| Formatter.GuessNameSingleUnknown | src/test/java/org/microg/address/FormatterTest.java:43-46 | with one unknown component after preparation, guessName returns its value |

## Left out

- Configuration loading: `readConfiguration`, `loadFile`, `open`,
  `findFilesInPath`, `readStreamAsString` and `getStringList`
  (Formatter.java:379-494). They do classpath I/O and YAML parsing. The
  configuration is an immutable value given to every operation, and
  code-table names are taken as already uppercased.
- Configured regular expressions: the replace and postformat rules go
  through `java.util.regex`, which is not part of this model. They are
  applied by the uninterpreted function `Config.replaceAll`, so no property
  depends on what a rule does. The same goes for malformed-regex exceptions.
- Enrichment.IsLiteralRule: the component name in the `^component=.*` test
  is read literally. A name containing regex metacharacters is not
  modelled.
- HashMap iteration order: keys are visited in insertion order, and a put
  on a present key keeps its place. The source's order is unspecified.
- Enrichment.CodeScanSpec: does not say which code wins when several rows
  list the name. It only says the winner is one of them, because the
  source's choice depends on HashMap order.
- Case conversion: `toUpperCase`, `toLowerCase` and `equalsIgnoreCase` are
  ASCII-only. Unicode case mapping, including mappings that change a
  string's length, is not modelled.
- Sanitizer.ParseInt: accepts an optional sign and ASCII digits within the
  32-bit range. Non-ASCII digits, which Java also accepts, are not modelled.
- Templates.ParsePair: a null scalar inside a replacement pair is rejected
  when parsing. Java builds a rule with a null field, which fails only when
  used.
- Exceptions: after a failure the model says nothing about the state of the
  map, since the source returns no value then.
- Renderer.DeleteTokens: does not promise that no complete token is left,
  because the source's single `replaceAll` pass does not guarantee it.
  Renderer.DeleteTokensCanLeaveToken proves a case where it fails. Its
  contract bounds the length. Renderer.DeleteTokensTokenFree and
  Renderer.DeleteTokensSingle state what the pass keeps and what it
  deletes.
- Formatter.ValidCopy: keys are strings. The null key a Java HashMap
  allows, which `ensureValidMap` would copy, is not modelled.
- Strings: text is a sequence of Unicode scalar values. Java strings that
  hold an unpaired surrogate are not modelled.
- YAML scalars: a value the loader constructs as a timestamp or another
  non-string, non-number object is not modelled. Integers and
  floating-point numbers are `YNumber`, kept as the text of their Java
  `toString`.
- Renderer.RenderSubstitutes: covers the `{{k}}` form in brace-free text,
  not the `{{{k}}}` form or text with other tokens.
- Renderer.FirstBlock: covers a single block in brace-free text, not
  several blocks.
- Cleaner.KeptSegments: that surviving segments keep their order and
  spelling holds by construction as a filter. It is not a separate
  subsequence lemma.
- Cleaner.Cleaned: idempotence and the absence of duplicate output lines
  are not proved, because the source does not guarantee them.
- Formatter.Enriched: states only well-formedness. Its steps are specified
  by their own members.
