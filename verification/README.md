# A verified model of the GS1 Digital Link resolver

The resolver turns a GS1 Digital Link URI into a redirect or a link-set. This project models its pure pipeline in
Dafny, from the text of the URI to the response, together with the metrics store that threads share, and proves
what each stage promises. The modules follow the source files:

| module | what it models |
|---|---|
| `Text`, `Sorting`, `Dict`, `Percent`, `Url` | the parts of Python the resolver leans on: `str`, the stable `sorted`, insertion-ordered `dict`, `quote`/`unquote` over UTF-8 bytes, `urlsplit`/`urlunsplit`, `parse_qsl`/`urlencode` |
| `AiTable`, `AiTableFacts` | the AI tables and the disjointness and uniqueness facts the proofs rest on |
| `Scanner`, `Parser`, `ParserProofs`, `Paths` | the segment scanner, the alpha rewriter, the classification loop, URIs made of segments, repeated AIs, permutations |
| `Gtin` | the check digit and padding |
| `Canonical`, `CanonicalProofs`, `NumericOrder` | the canonical printer, print-then-parse, the complete invariant, when the printed order is numeric |
| `Template`, `Router`, `RouterProofs`, `CanonicalRouting` | template filling, matching, query forwarding, first-match routing, when a canonical URI is routed as the URI it stands for |
| `Linkset` | the RFC 9264 link-set |
| `Negotiate` | the choice of a media type (section 5.3.2 of RFC 7231) |
| `Counters`, `Interleaving`, `Exposition`, `ExpositionProofs`, `Metrics` | the counters, threads interleaved at single reads and writes, the Prometheus text and a reader of it, the shared object |
| `WellKnown` | the derivation of the published primary keys |
| `App`, `AppProofs` | the decisions of the request handler and what it counts; what of a path, and of its canonical form, shows in the answer |
| `Witnesses` | URIs on which a promise fails, for the conditions that need one |

Code that loops or updates (`parse`, `_normalise_alpha`, `canonicalise`, `as_dict`, `_fill`, `Router.load`,
`Router.resolve`, the metrics calls, `build_linkset`, `_parse_accept`, `select_media_type`, `derive_primary_keys`,
the request handler) is a method, proved equal to a specification function; the theorems are about those functions.
`Router`, `Metrics` and `Service` are classes, because the source updates them in place.

Where the code and its own documentation differ, the model follows the code:

- "Numeric AI order" is string order: `sorted` compares AIs as text, so 240 is printed before 90
  (`Witnesses.AttributesOutOfOrder`). `NumericOrder.AttributesNumericExactly` says exactly when the attributes are in
  numeric order; the qualifiers after the listed ones always are (`NumericOrder.LeftoversNumeric`).
- `parse` never decodes path values and `canonicalise` encodes them, so canonicalising twice is not canonicalising
  once (`Witnesses.EncodedTwice`); `CanonicalProofs.CanonicalIdempotent` says exactly when it is.
- A second primary key in a path is stored as an attribute. When it has the AI of the first, `{01}` and `{gtin}` show
  the attribute and not the primary key (`Witnesses.SecondKeyShown`); `RouterProofs.KeyInTemplates` and
  `RouterProofs.KeyOfPathInTemplates` say exactly when they show the key. The check digit is checked on the key
  (`AppProofs.CheckedAndShown`).
- Shorter GTINs are padded when a canonical URI is printed and nowhere else: a right GTIN-8 is refused by the handler,
  and its canonical URI is not (`AppProofs.ShortGtinRefused`). `AppProofs.CanonicalAnsweredAlike` says exactly when
  the canonical URI is answered as the URI it stands for.
- A comment says keys are replaced longest first so that `serial` goes before `ser`. The order makes no
  difference: placeholders carry both braces (`Template.AnyOrderSubstitutes`).
- A value that opens a brace can be filled again, and then routing depends on the order of the segments
  (`Witnesses.OpenBraceShowsOrder`); `Template.ConfluentExactly` says exactly when the order of the keys cannot show.
- `gtin_prefix` and `gtin_regex` do not ask for AI 01, so the published keys are not all the keys the routes can
  match (`WellKnown.PrefixMatchesOtherKeys`; `WellKnown.PublishedExactly` gives the condition).
- Quality zero skips an entry and does not forbid the type (`Negotiate.RefusedExample`; `Negotiate.RefusedAnyway`
  gives the condition).
- A relation named `anchor` replaces the anchor (`Linkset.AnchorLostExample`; `Linkset.AnchorLost` gives the
  condition), and a route without links drops the validation status (`Linkset.ValidationIsSidecar`).
- A newline in a label is not escaped: the count is lost (`ExpositionProofs.NewlineLosesCount`), and the label can
  hold a line that reads as a latency count (`ExpositionProofs.NewlineForgesCount`). The round trips give the
  conditions.
- The configuration check lets `link_types: null` pass, and loading stops there, with the rules before it loaded
  (`Router.Router.Load`).

## Model

| member | source | states |
|---|---|---|
| `Scanner.ScannerIsLeftmostLongest` | resolver/parser.py:36 | on every path the scanner returns exactly the leftmost-longest, non-overlapping matches of the expression, each with the place it starts |
| `Scanner.LeftmostLongestUnique` | resolver/parser.py:36 | only one list of matches fits that description |
| `Scanner.FindAllRender` | resolver/parser.py:120 | on a path made of well-shaped segments the scanner returns exactly those segments |
| `Scanner.FindAllShaped` | resolver/parser.py:120 | every segment returned has 2 to 4 digits and a non-empty value free of `/`, `?` and `#` |
| `Scanner.ShapeIs` | resolver/parser.py:36 | what a segment is, character by character |
| `Parser.Normalise` | resolver/parser.py:146-167 | the rewriting loop computes `NormaliseAlpha` |
| `Parser.ParseUri` | resolver/parser.py:97-143 | the parsing loop computes `Parse`, error cases included |
| `ParserProofs.NormaliseAlphaIdempotent` | resolver/parser.py:146-167 | rewriting twice is rewriting once, no token is added or lost, and every token at value position stays |
| `ParserProofs.NormaliseRender` | resolver/parser.py:160-167 | on a path of segments only the AIs change |
| `ParserProofs.NormaliseMeaning` | resolver/parser.py:146-167 | token by token: at AI position a name of the table in any letter case becomes its AI and anything else stays; at value position everything stays |
| `ParserProofs.PathOfMeaning` | resolver/parser.py:110-111 | the path that is read is that of the URL, with the parameters of its last segment cut off where the scheme has them |
| `ParserProofs.KindMeaning` | resolver/parser.py:126-138 | AIs outside the table are unknown, six are qualifiers, all others attributes |
| `ParserProofs.ClassifyMeaning` | resolver/parser.py:124-138 | the first primary AI is the key; every other segment is written to the place its kind says, a later primary AI to the attributes, over what an earlier one with the same AI wrote |
| `ParserProofs.ParseRendered` | resolver/parser.py:107-143 | with or without an origin, query and fragment, a URI made of segments parses to those segments |
| `ParserProofs.AlphaMeansNumeric` | resolver/parser.py:118-120 | each known AI written as its number or as its name in any letter case gives the same outcome, even where a value spells a name |
| `Paths.ParsePlaced` | resolver/parser.py:107-143 | a URI made of segments, with AIs known or not, parses to the first primary key and every other segment in its place |
| `Paths.ParseExactly` | resolver/parser.py:97-143 | each way parsing fails, if and only if: more than 2048 characters, no segment, no primary AI among the segments; else the first primary segment and the others are the result |
| `Paths.QueryOfUri` | resolver/parser.py:112-115 | of every URI that parses: each name's values as the query gives them, and the link type, which is the first value of `linkType`, or none |
| `Paths.PlacedValues` | resolver/parser.py:124-138 | of an AI that occurs more than once, the key aside, the last value stays and the earlier ones are gone; segments with an unknown AI all stay |
| `Paths.SamePlaced` | resolver/parser.py:124-138 | two paths with one query parse to the same key, maps and query exactly when their keys and their last values of every other known AI agree |
| `Paths.PermutedParse` | resolver/parser.py:124-138 | permuted segments, with distinct AIs and one primary key, parse to results that differ in the order of their dicts at most |
| `AiTableFacts.KnownAi` | resolver/ai_table.py:117-121 | a known AI has 2 to 4 digits, no leading zero when longer than 2, a well-shaped name, and its name leads back to it |
| `AiTableFacts.KnownName` | resolver/ai_table.py:119-121 | a name in the table leads to a known AI that has that name |
| `AiTableFacts.NotAName` | resolver/ai_table.py:120 | nothing that does not start with a small letter is a name, so no AI is |
| `AiTableFacts.PrimaryAi` | resolver/ai_table.py:119-123 | a primary AI is known and is no qualifier |
| `AiTableFacts.Lookup` | resolver/ai_table.py:117-123 | which AIs are known, primary and qualifiers, and their names, said of the rows |
| `AiTableFacts.QualifierIs` | resolver/ai_table.py:65-72 | which AIs are qualifiers |
| `AiTableFacts.OrderDistinct` | resolver/ai_table.py:131-138 | no qualifier is listed twice in an order |
| `Gtin.ValidateIsPasses` | resolver/parser.py:180-185 | comparing with the computed check digit is the multiple-of-ten rule on right-aligned weights |
| `Gtin.PaddingPreservesCheck` | resolver/parser.py:188-194 | a padded GTIN-8, -12, -13 or -14 is valid exactly when the number passes the rule at its own length |
| `Gtin.PadIdempotent` | resolver/parser.py:188-194 | padding twice is padding once |
| `Gtin.PadMeaning` | resolver/parser.py:188-194 | 8, 12 or 13 digits get zeros in front, up to 14; any other text stays |
| `Gtin.UniqueCheckDigit` | resolver/parser.py:184 | the same rule has exactly one completing digit at any length |
| `Gtin.OneDigitCompletes` | resolver/parser.py:173-185 | thirteen digits are completed to a valid GTIN-14 by exactly one digit |
| `Gtin.SingleErrorDetected` | resolver/parser.py:180-185 | one wrong digit is detected, at any length |
| `Gtin.SwapDetected` | resolver/parser.py:180-185 | swapping two different neighbours goes undetected exactly when they differ by five, at any length |
| `Gtin.WrongDigitRefused` | resolver/parser.py:173-185 | a valid GTIN-14 with one digit changed is refused |
| `Gtin.SwappedDigits` | resolver/parser.py:173-185 | a valid GTIN-14 with two different neighbours swapped is accepted exactly when they differ by five |
| `Canonical.Print` | resolver/parser.py:200-238 | the two emission passes and the attribute pass print `Canonicalise`; a result without a primary key is refused, and no other |
| `CanonicalProofs.ParseWellFormed` | resolver/parser.py:97-143 | every successful parse has a primary key, non-empty values, and each AI once and in its place |
| `CanonicalProofs.QualifierKeysPartition` | resolver/parser.py:224-233 | the ordered pass and the leftover pass partition the qualifier keys |
| `CanonicalProofs.EmissionConserves` | resolver/parser.py:222-236 | the printed segments are the primary and every qualifier and attribute, each exactly once |
| `CanonicalProofs.EmissionOrders` | resolver/parser.py:222-236 | primary first, then the listed qualifiers as listed, the others by string order, then the attributes by string order |
| `CanonicalProofs.QualifiersRanked` | resolver/ai_table.py:131-138 | the place of each listed qualifier among the printed ones: 22 before 10 before 21 under 01 and 8006, 254, 21 and 8011 first under theirs |
| `NumericOrder.NumericIsShortLex` | resolver/ai_table.py:42-115 | the numeric order of known AIs: shorter first, and those of one length as text |
| `NumericOrder.AttributesNumericExactly` | resolver/parser.py:234-236 | the attributes are printed in numeric order if and only if, of any two of different length, the shorter comes first as text |
| `NumericOrder.LeftoversNumeric` | resolver/parser.py:230-233 | the qualifiers after the listed ones are always printed in numeric order |
| `Witnesses.AttributesOutOfOrder` | resolver/parser.py:234-236 | a URI that parses and whose canonical form has AI 240 before AI 90 |
| `CanonicalProofs.PrintThenParse` | resolver/parser.py:97-238 | the canonical URI parses to the same primary AI, the padded value and the same keys, every value percent-encoded, with no query and no unknown AI |
| `CanonicalProofs.ReprintedValues` | resolver/parser.py:222-236 | each reprinted value is the encoding of the original, and decoding it gives the original |
| `CanonicalProofs.CanonicalComplete` | resolver/parser.py:200-238 | two results have one canonical URI exactly when primary AI, padded value, qualifiers and attributes agree |
| `CanonicalProofs.CanonicalFormOfUris` | resolver/parser.py:97-238 | the same, for any two URIs that parse |
| `CanonicalProofs.CanonicalFormOfPaths` | resolver/parser.py:97-238 | two paths, AIs repeated or not, have one canonical URI exactly when the first primary AI, its padded value and the last value of every other known AI agree; order, earlier values, unknown AIs, origin and query do not show |
| `CanonicalProofs.CanonicalIgnoresSegmentOrder` | resolver/parser.py:200-238 | permuted paths have one canonical URI |
| `CanonicalProofs.CanonicalIdempotent` | resolver/parser.py:222-236 | canonicalising the canonical URI changes nothing if and only if every printed value is unreserved |
| `Witnesses.EncodedTwice` | resolver/parser.py:222-236 | a URI whose canonical form is encoded again when it is canonicalised |
| `Percent.UnquoteQuote` | resolver/parser.py:222-236 | decoding undoes `quote(..., safe="")`, for every string |
| `Percent.QuoteFixed` | resolver/parser.py:222 | `quote` leaves a string alone exactly when it has only unreserved characters |
| `Percent.UnreservedIs` | resolver/parser.py:222 | which characters are not encoded |
| `Percent.HexIs` | resolver/parser.py:222 | capital hexadecimal digits are written, digits in either letter case are read |
| `Percent.QuoteExamples` | resolver/parser.py:222 | encoded characters of one, two, three and four bytes |
| `Percent.UnquoteOther` | resolver/router.py:249 | decoding leaves any character but the percent sign alone |
| `Percent.UnquoteStray` | resolver/router.py:249 | a percent sign without two hexadecimal digits stays |
| `Percent.UnquoteByte` | resolver/router.py:249 | two digits are one byte: an ASCII character, or a replacement where it starts none |
| `Percent.UnquotePlusQuotePlus` | resolver/router.py:249-250 | form decoding undoes form encoding, for every string |
| `Percent.UnquotePlusCons` | resolver/router.py:249 | form decoding reads a plus sign as a space and leaves other characters to decoding |
| `Percent.QuotePlusCons` | resolver/router.py:250 | form encoding writes a space as a plus sign and encodes every other character |
| `Url.SplitIsSplittable` | resolver/router.py:248 | where each delimiter may still occur after `urlsplit` |
| `Url.SplitKeepsText` | resolver/router.py:248 | `urlsplit` cuts any text into its five parts with their marks; only the letter case of the scheme and marks of empty parts are lost |
| `Url.SplitUnsplit` | resolver/router.py:248-250 | splitting undoes unsplitting, for everything `urlsplit` can produce |
| `Url.UrlWritten` | resolver/router.py:250 | what `urlunsplit` writes, part by part |
| `Url.SplitPath` | resolver/parser.py:110-112 | the path and the query of a plain path or of a URL with a host are cut where they should be |
| `Url.SuffixQueryIs` | resolver/parser.py:112 | the query of a URI is the text between the question mark and the fragment |
| `Url.ParseEncode` | resolver/router.py:249-250 | `parse_qsl` undoes `urlencode`, for every list of pairs |
| `Url.QueryRead` | resolver/parser.py:112 | reading any query: fields are cut at `&`, empty ones skipped, cut again at the first `=`; without one the value is empty |
| `Url.QueryWritten` | resolver/router.py:250 | writing a query: `name=value`, encoded, joined by `&` |
| `Dict.GroupValues` | resolver/parser.py:112 | grouping by name keeps every value of every name, in order |
| `Template.FillTemplate` | resolver/router.py:234-241 | the replacement loop computes `Fill` |
| `Template.LongestFirst` | resolver/router.py:239 | longer keys are replaced first, keys of one length in the order of the dict, each once |
| `Template.LongerRefilled` | resolver/router.py:239-241 | a value that is the placeholder of a shorter key is filled again, that of a longer key is not |
| `Template.AnyOrderSubstitutes` | resolver/router.py:239-241 | in whatever order the keys are taken, replacing one after the other is substituting all at once, as long as no value makes work for another key |
| `Template.ConfluentExactly` | resolver/router.py:239-241 | that holds for every template and every order if and only if no value has, or can be continued to, the placeholder of another key |
| `Template.FillSubstitutes` | resolver/router.py:234-241 | `_fill` is one simultaneous pass: known holes become their values, unknown ones stay as written |
| `Template.TokeniseReads` | resolver/router.py:234-241 | a template whose open braces are each closed before the next is a list of literals and holes |
| `Template.FillOrderIrrelevant` | resolver/router.py:239-241 | filling depends on the map a context denotes and not on the order of its keys |
| `Template.OpenBraceRefilled` | resolver/router.py:239-241 | in every context, a value that is another key's placeholder is filled again exactly when its own key is taken first |
| `Sorting.SortStable` | resolver/router.py:239 | equally long keys keep the order in which they were written |
| `Router.BuildContext` | resolver/parser.py:72-86 | the dictionary writes compute `AsDict` |
| `RouterProofs.AsDictMeaning` | resolver/parser.py:72-86 | what every template key means: attribute, else qualifier, else primary value of its AI; the three aliases default to the empty string |
| `RouterProofs.KeyInTemplates` | resolver/parser.py:72-86 | number and name of the primary key stand for the attribute with that AI, if there is one; for the key's own value exactly when there is none or it has the same value |
| `RouterProofs.KeyOfPathInTemplates` | resolver/parser.py:72-86 | the same for paths: they stand for the last value of that AI after the key, if there is one |
| `RouterProofs.KeyTemplateResolved` | resolver/router.py:216-231 | a route to the key's name in braces sends every path whose values open no brace to that value |
| `Witnesses.SecondKeyShown` | resolver/parser.py:72-86 | a URI whose primary key no template can show |
| `RouterProofs.NoBracesSettled` | resolver/parser.py:72-86 | values without open braces make no work for any template key, so their context is filled simultaneously |
| `RouterProofs.AsDictUnique` | resolver/parser.py:72-86 | no key is listed twice |
| `Router.Router.constructor` | resolver/router.py:177-180 | a new router has no routes, the validator that does nothing and an empty block |
| `Router.LoadLinks` | resolver/router.py:195-204 | each link of a rule is loaded with its defaults |
| `Router.LoadedMeaning` | resolver/router.py:193-212 | what each rule loads to: its own target, match, links and names to forward, and the defaults for what it leaves out |
| `Router.Router.Load` | resolver/router.py:189-214 | loading replaces the routes by those of the rules, in order and with their defaults, then stores the validator and the block; it fails exactly at a bad configuration, at a rule with `link_types: null` or at a validator that cannot be built, and what was done before stays done |
| `Router.Router.ResolveParsed` | resolver/router.py:216-231 | the search follows the first route that matches, or finds none |
| `RouterProofs.FirstMatchFollowed` | resolver/router.py:224-231 | the first route that matches is followed: its target and links, filled in and with the forwarded pairs, relation, type and language as configured; no answer if and only if none matches |
| `RouterProofs.MatchesPath` | resolver/router.py:154-174 | a route matches a URI of segments if and only if the key's AI and value, the last value of the qualifier asked for and of AI 21 satisfy every clause that is present |
| `RouterProofs.SameResolution` | resolver/router.py:216-231 | results that agree as maps are resolved alike by every list of readable routes, as long as no value makes work for another template key |
| `RouterProofs.RoutingSeesLastValues` | resolver/router.py:216-241 | two paths, AIs repeated or not, with the same query, key and last value of every other known AI get the same target and the same links, as long as no value makes work for another template key |
| `RouterProofs.RoutingIgnoresSegmentOrder` | resolver/router.py:216-241 | URIs whose segments are permutations of each other, with distinct AIs and one primary key, get the same target and the same links, as long as no value opens a brace, or none makes work for another template key |
| `Witnesses.OpenBraceShowsOrder` | resolver/router.py:216-241 | two permuted URIs with a value that opens a brace get different targets from one route |
| `CanonicalRouting.CanonicalRoutesAlike` | resolver/router.py:216-250 | an identifier is routed as its canonical URI is, by every list of readable routes, if and only if its query has no value, its GTIN, if it has one, is padded already, and every value is unreserved |
| `RouterProofs.AppendQueryKeepsRest` | resolver/router.py:244-250 | forwarding rewrites the query of a URL and nothing else |
| `RouterProofs.AppendQueryDecodes` | resolver/router.py:244-250 | the new query decodes to the old pairs followed by the forwarded ones; with none, the URL is unchanged |
| `RouterProofs.ForwardingRoundTrip` | resolver/router.py:144-151 | for every URI that parses and every route, the target and each link carry the filled template's pairs, then the listed names' incoming pairs in route order, and no other |
| `Linkset.Build` | resolver/linkset.py:64-112 | the building steps compute `BuildLinkset` |
| `Linkset.GroupByRel` | resolver/linkset.py:96-105 | the grouping loop lists each link under its relation, empty parts left out |
| `Linkset.ExpandIsRule` | resolver/linkset.py:53-61 | the table agrees with the rule below it, no relation keeps the `gs1:` prefix, and expanding twice is expanding once |
| `Linkset.ExpandExamples` | resolver/linkset.py:15-61 | a relation and the default relation in full |
| `Linkset.LinksetMeaning` | resolver/linkset.py:78-112 | what every key of the entry holds |
| `Linkset.GroupingKeepsLinks` | resolver/linkset.py:96-107 | each relation lists exactly the surviving links that have it, in order; the anchor stays exactly when no surviving relation has its name |
| `Linkset.LinksConserved` | resolver/linkset.py:78-107 | the entry lists as many links as survive promotion and filtering |
| `Linkset.PromotionAndNarrowing` | resolver/linkset.py:83-94 | exactly one link is added when no default is declared; a matching `linkType` keeps only its relation, another one keeps all |
| `Linkset.NarrowedToOne` | resolver/linkset.py:89-94 | a matching `linkType` leaves exactly one relation, and its list is not empty |
| `Linkset.ListedExactly` | resolver/linkset.py:64-112 | every key of the entry, said of the declared links: under each relation exactly its links, in order, with the first link as default where none is declared; narrowed, all links of the requested relation and no other |
| `Linkset.NarrowedExactly` | resolver/linkset.py:88-94 | a response is narrowed if and only if it is asked for a relation under which a link is listed |
| `Linkset.EntryMeaning` | resolver/linkset.py:96-105 | which parts of a link are listed, and how |
| `Linkset.AnchorLost` | resolver/linkset.py:107 | the anchor is lost if and only if a declared relation is named `anchor` and the response is not narrowed to another |
| `Linkset.AnchorLostExample` | resolver/linkset.py:107 | a link whose relation is named `anchor` takes the place of the anchor |
| `Linkset.ValidationIsSidecar` | resolver/linkset.py:107-112 | the validation status is one more key at the end and nothing else; without links there is none |
| `Linkset.DefaultHref` | resolver/linkset.py:130-139 | the default href is that of the first default link, or of the first link, unless the response is narrowed to another relation or the href is empty |
| `Negotiate.ReadAccept` | resolver/negotiate.py:28-50 | the header loop computes `ParseAccept` |
| `Negotiate.HeaderMeaning` | resolver/negotiate.py:28-50 | a header is cut at its commas and read in order, entries stripped, blank ones skipped |
| `Negotiate.RangeMeaning` | resolver/negotiate.py:28-50 | an entry is cut at its semicolons into type and parameters, stripped |
| `Negotiate.LastQuality` | resolver/negotiate.py:28-50 | the last `q=` parameter is the quality, zero if it is no number |
| `Negotiate.NoQuality` | resolver/negotiate.py:28-50 | without one the quality is one |
| `Text.StripMeaning` | resolver/negotiate.py:28-50 | stripping cuts the white space at both ends and nothing else |
| `Negotiate.Select` | resolver/negotiate.py:61-83 | the nested search computes `SelectMediaType` |
| `Negotiate.SelectIsBest` | resolver/negotiate.py:28-83 | the answer is the first offer of the earliest entry among those with the highest quality that can decide, or the default |
| `Negotiate.InertEntry` | resolver/negotiate.py:28-83 | an entry that matches no offer, has no positive quality or is blank changes nothing, wherever it is inserted |
| `Negotiate.OfferFor` | resolver/negotiate.py:53-58 | which offer each range stands for |
| `Negotiate.SentExactly` | resolver/negotiate.py:28-83 | a type is sent if and only if some entry asks for it and outranks every entry that asks for another type, or no entry asks for any and it is the default |
| `Negotiate.RefusedAnyway` | resolver/negotiate.py:76-83 | a type given quality zero is sent all the same exactly when another entry asks for it and outranks all that ask for other types, or no entry asks for any type and it is the default |
| `Negotiate.RefusedExample` | resolver/negotiate.py:76-83 | such a header |
| `Counters.ReplayCounts` | resolver/metrics.py:41-54 | after any calls, each counter is the number of calls it counts and the totals agree |
| `Counters.ReplayOutcomes` | resolver/metrics.py:41-47 | an outcome has a counter exactly when a request was recorded with it, and no counter stands at zero |
| `Counters.ReplayGrows` | resolver/metrics.py:41-54 | further calls make no counter smaller |
| `Interleaving.ProgramEffect` | resolver/metrics.py:41-68 | the reads and writes of one call, run under the lock, do what the call does; `render` copies exactly |
| `Interleaving.NextInv` | resolver/metrics.py:41-68 | every step of every thread keeps the invariant |
| `Interleaving.CallsConserved` | resolver/metrics.py:41-68 | in every run, each call begun is finished once or still pending |
| `Interleaving.NoLostUpdates` | resolver/metrics.py:41-54 | in every run, whenever the lock is free, each counter is the number of finished calls, and the outcomes add up to the latency count |
| `Interleaving.ConsistentSnapshots` | resolver/metrics.py:61-68 | every snapshot is the state after some number of finished calls, among them all that had finished when `render` was called; it adds up, and is nowhere larger than a later one |
| `Interleaving.SnapshotVersion` | resolver/metrics.py:61-68 | the version of a snapshot was current after exactly the calls it counts |
| `Interleaving.LockIsSafeAndLive` | resolver/metrics.py:24-68 | at most one thread is inside, and while any thread is busy one can move |
| `Interleaving.BusyThreadsFinish` | resolver/metrics.py:24-68 | a run that goes on without new calls ends after exactly the steps its threads have left, with every call begun finished, and until then some thread can move |
| `Exposition.EscapeIsOnePass` | resolver/metrics.py:57-58 | the two replacements are one escape per character |
| `Exposition.EscapeReads` | resolver/metrics.py:57-58 | a reader recovers every escaped label |
| `Exposition.DecimalReads` | resolver/metrics.py:82-92 | a printed count reads back as itself, and has no leading zero |
| `ExpositionProofs.TextLayout` | resolver/metrics.py:70-94 | the whole text, block by block: version, outcomes, verdicts, latency sum and count, each after its help and type |
| `ExpositionProofs.RequestsRecovered` | resolver/metrics.py:70-94 | the request counts read back are those of the outcomes without a newline, in sorted order |
| `ExpositionProofs.RequestsRoundTrip` | resolver/metrics.py:70-94 | the request counts are read back exactly, if and only if no outcome contains a newline |
| `ExpositionProofs.ValidationsRoundTrip` | resolver/metrics.py:70-94 | the validation counts are read back exactly, whatever the outcomes are |
| `ExpositionProofs.LatencyRecovered` | resolver/metrics.py:70-94 | the latency counts read back: those that lines inside the version and the outcomes forge, and the real one |
| `ExpositionProofs.LatencyRoundTrip` | resolver/metrics.py:70-94 | the latency count alone is read back, if and only if neither the version nor an outcome has such a line |
| `ExpositionProofs.NewlineLosesCount` | resolver/metrics.py:77-81 | a request counted under an outcome with a newline is not found again |
| `ExpositionProofs.NewlineForgesCount` | resolver/metrics.py:77-81 | an outcome with newlines that reads as a second latency count |
| `Metrics.Metrics.constructor` | resolver/metrics.py:26-32 | the counters start at zero |
| `Metrics.Metrics.SetVersion` | resolver/metrics.py:35-38 | the version is set and no counter changes |
| `Metrics.Metrics.RecordRequest` | resolver/metrics.py:41-47 | one request is counted under its outcome and its latency is added |
| `Metrics.Metrics.RecordValidation` | resolver/metrics.py:50-54 | one verdict is counted |
| `Metrics.Metrics.Render` | resolver/metrics.py:61-94 | the line loops print `RenderText` of the current counters |
| `Metrics.ScrapeAddsUp` | resolver/metrics.py:61-94 | in every run, the request counts a reader finds in a scrape, whose latency sum fits on a line, sum to the one latency count it finds there if and only if no outcome recorded before has a newline and the version has no line that reads as a latency count |
| `WellKnown.Derive` | resolver/wellknown.py:145-176 | the set loop computes `DerivePrimaryKeys` |
| `WellKnown.DerivedKeys` | resolver/wellknown.py:161-176 | which keys are published; there is at least one, and the list is strictly increasing as strings |
| `WellKnown.PublishedMeaning` | resolver/wellknown.py:161-176 | which keys are published, said of the clauses of the routes |
| `WellKnown.OrderDoesNotShow` | resolver/wellknown.py:161-176 | permuted routes publish the same list |
| `WellKnown.PublishedExactly` | resolver/wellknown.py:161-176 | the key of a parsed URI is published exactly when a route pins it, or it is 01 and no route pins a permitted key |
| `WellKnown.PublishedKeysCover` | resolver/wellknown.py:161-176 | whatever a route with a `primary_ai` clause matches has a published key |
| `WellKnown.PrefixMatchesOtherKeys` | resolver/router.py:160-162 | a `gtin_prefix` route matches an SSCC whose key is not published |
| `App.Service.constructor` | resolver/app.py:91 | a service starts without a router, whatever the configuration |
| `App.Service.GetRouter` | resolver/app.py:94-98 | the router is made once and then kept; a configuration that does not load leaves none, each time |
| `App.Service.Resolve` | resolver/app.py:133-187 | the early returns compute `Respond`, and the counters move by exactly the calls of the branch taken |
| `App.ValidationDoesNotInterfere` | resolver/app.py:164-187 | two validators give the same status, redirect and media type, and link-sets equal apart from the validation status |
| `App.RedirectLocation` | resolver/app.py:179-182 | where a redirect goes, in terms of the links and the target of the route |
| `AppProofs.AnswersExactly` | resolver/app.py:154-187 | exactly the requests that parse, pass the check digit and have a route are answered; those that choose HTML by a redirect to the preferred link, all others by a document of the media type they choose |
| `AppProofs.DocumentExactly` | resolver/app.py:161-187 | every key of that document: anchor, links, and the report if it has a profile |
| `AppProofs.FailsExactly` | resolver/app.py:140-156 | parse error, wrong check digit, no router, no route: each if and only if |
| `AppProofs.StatusIs` | resolver/app.py:140-187 | the status of each kind of answer |
| `App.CountersTellResponses` | resolver/app.py:140-187 | after a new service has served any list of requests, as `Service.Resolve` changes its counters, each outcome counter is the number of responses with its status and the latency count is the number of requests that no exception ended |
| `AppProofs.CountersTellReports` | resolver/app.py:166-187 | each verdict counter is the number of requests answered on which the validator reported it, and the latency sum is the time spent on requests no exception ended |
| `App.ServedReplay` | resolver/metrics.py:41-54 | serving requests one by one leaves the counters that replaying all their calls leaves |
| `AppProofs.ResponseSeesLastValues` | resolver/app.py:133-187 | two paths, AIs repeated or not, with the same query, key and last value of every other known AI get the same response, apart from the anchor and the validation status |
| `AppProofs.ResponseIgnoresSegmentOrder` | resolver/app.py:133-187 | permuted segments get the same response, apart from the anchor and the validation status |
| `AppProofs.ResponseIgnoresSpelling` | resolver/app.py:133-187 | alpha-coded and numeric requests get the same response, apart from the anchor |
| `AppProofs.CheckedAndShown` | resolver/app.py:145 | for every valid GTIN-14 `g` and value `v` without an open brace, `/01/g/01/v` passes the check digit and a route to `{gtin}` resolves it to `v` |
| `AppProofs.CheckOfCanonical` | resolver/app.py:145 | a canonical URI is refused for its check digit exactly when the URI it stands for is, unless that has a GTIN-8, -12 or -13 with a right check digit |
| `AppProofs.ShortGtinRefused` | resolver/app.py:145 | every such number is refused, and its canonical URI passes |
| `AppProofs.CanonicalAnsweredAlike` | resolver/app.py:133-187 | for every request that parses: it is answered as its canonical path is, by every service with readable routes and for every header, apart from the anchor and the validation status, if and only if the key is printed as it is and either its check digit is wrong or printing loses nothing |

## Left out

- `GS1ParseResult` is a value that the loops of `Parser.ParseUri` and `Router.BuildContext` replace field by field; sharing one result between callers is not captured.
- `urlsplit` beyond splitting: removal of control characters and outer spaces, the bracket and NFKC checks of a host. `urlunsplit` is that of Python 3.12.4 and later, which the container image uses.
- Unicode beyond ASCII in `lower`, `isdigit`, `\d` and `strip`; percent-encoding does cover all of UTF-8.
- The texts of error messages; the error cases and the values they name are modelled.
- Template hypotheses: the theorems on `_fill` ask that every open brace of a template is closed before the next opens.
- `Template.ConfluentExactly`: is about all orders of the keys; `_fill` takes longer keys first, and for those orders alone the condition is sufficient, not necessary, because values that refill each other can restore a text by coincidence.
- `RouterProofs.RoutingIgnoresSegmentOrder`: asks that no value makes work for another template key, or the simpler condition that none opens a brace; for the code's own order of the keys this is sufficient, not necessary.
- YAML loading and configuration checks (`_validate_config`, `validate_well_known_config`): long lists of single-branch checks. A match clause is missing, null or a scalar, and `serial_in` is a list.
- `Router.Router.Load`: the check of the configuration, and what builds the validator, are given by their outcome; a match clause is taken as it is.
- `Router.Router.constructor`: is the router without a configuration path; with one it is followed by `Load`.
- Regular expressions of operators: `re.fullmatch` is a parameter.
- `float` of a quality value is a parameter that gives a real number or fails; infinities and NaN are not covered. Latencies are reals: rounding of the sum is not modelled, and how it is printed is a parameter.
- Validators are arbitrary total functions: schemas, HTTP calls and the smoke checks are not modelled, nor is a validator that raises. An exception that leaves the handler is a response of its own, with the status the framework gives it.
- The exposition theorems ask that the printed latency sum fits on a line, as every printed float does.
- The key order of a link-set entry beyond the place of the validation status, and the JSON-LD wrapper, which adds a constant context.
- `build_well_known`: copying of optional fields, and the override of the derived keys.
- FastAPI wiring, request ids, logging, the clock, and the health, metrics and description endpoints.
