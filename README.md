# Debian mirror selector: record assembler and scoring pipeline

This project models the two sequential cores of `mirror-selector.go` and proves properties of them.

1. **The record assembler.** This is the loop in `main` that walks the children of the content div of the Debian mirror list ("list-full").
   - Six lists of marker nodes are found beforehand: line breaks, country headings, `Site:` labels, `Packages over …:` labels, `Type:` labels and `Includes architectures:` labels.
   - A node counts as a marker only if it is the next unconsumed entry of one of these lists. The lists are tested in that priority order, and each has its own counter.
   - The loop rebuilds one `site` record per mirror: its hosts, type, architectures, package URLs by protocol, and score.
2. **The scoring pipeline.** It has three parts:
   - the dispatcher, which announces one scorer per site and then that no more will come;
   - the scorer, which sets a site's score to 0 and delivers it;
   - the results accumulator, which counts scorers in and out and returns the collected scores once every announced scorer has delivered.

Modelling choices:
- **Nodes.** A node is identified by its position among the content div's children. A marker list is the list of positions its XPath query returned. Go's `node == list[i+1]` pointer comparison becomes a comparison of positions.
- **Fatal errors.** Every `log.Fatalln` and every run-time panic of the loop is an `Err(Failure)` outcome, not a precondition.
- **Loop structure.** One pass of the `for` loop is the method `Assembler.Visit`, proved equal to the function `Assembler.Step`. The loop is `Assembler.ParseMirrorList`, proved equal to `Assembler.Assemble`, which is the specification. The lemmas about `Step`, `Walk` and `Assemble` state what the loop guarantees.
- **Scoring.** The goroutines and channels are replaced by a trace: the messages the accumulator receives, in the order its `select` takes them.
  - `Scoring.Schedule` describes the traces the channels allow. The announcements arrive as the dispatcher sent them. The deliveries are those of the launched scorers, in any order. No delivery arrives before its scorer was announced, because `scorerCreated` is unbuffered and the scorer starts after the send.
  - `Scoring.ResultsAccumulator` runs the Go loop over such a trace. It is proved equal to the fold `Scoring.Accumulate`.

Files:
- `common.dfy`: Option and Result.
- `strings.dfy`: the `strings` functions the parser uses, with ASCII white space only.
- `records.dfy`: the `site` record and the part of `url.URL` that is used.
- `assembler.dfy`: the parse loop.
- `scoring.dfy`: the dispatcher, the scorer and the accumulator.

The program's usage text (mirror-selector.go:21-60) and its design comments (mirror-selector.go:246-288) promise more than the code does. The model follows the code:
- A type or architecture marker before the first site marker is not an error. It updates the zero record, which the first site marker then discards. Only a package-URL marker fails there, because the code writes to a nil map or indexes nil `Hosts`.
- Only the protocol spelled `HTTP` gets a parsed URL, and its scheme is forced to `http`. `rsync` gets the canonical host plus the trimmed payload. Every other protocol, including HTTPS and FTP, is stored as nil.
- At the end of the siblings the current record is always appended. With no site marker at all, the result is one record with no hosts. It carries the last type and architectures seen after the first country heading.
- An empty host list is not rejected. Split never returns an empty list.
- Architectures are split on a single space, not on any white space.
- There is no filter (it is `if true`), no probing (the score is the constant 0) and no ordering: results come back in delivery order.

## Model

| member | source | states |
|---|---|---|
| Assembler.ParseMirrorList | mirror-selector.go:137-213 | The parse loop returns exactly what the record assembler specifies, fatal errors included. On success it yields between 1 and max(1, number of site markers) records. |
| Assembler.Visit | mirror-selector.go:148-212 | One pass of the loop, including the `switch protocol` with its URL parse failure and its `Hosts[0]` and nil-map panics, equals one Step. |
| Assembler.Assemble | mirror-selector.go:145-153 | No country heading fails with NoCountries (`countryDivs[0]`). A first heading with no previous sibling fails with NoPrevSibling. A successful parse has at least one record and at most max(1, site markers). |
| Assembler.Start | mirror-selector.go:139-146 | The loop starts with all six counters at -1, no records and the zero site, and this state meets the walk invariant `Inv`. |
| Assembler.WalkCount | mirror-selector.go:150-153 | A successful walk from a state meeting `Inv` ends with exactly max(1, site markers consumed) records and with every counter in [-1, len-1]. The first site marker appends nothing, each later one appends the previous record, and the end of the siblings appends one more. |
| Assembler.WalkAppendsOpen | mirror-selector.go:150-153 | A successful walk ends on the last sibling, and its last record is the record open at that point, unchanged. |
| Assembler.StepKeepsInv | mirror-selector.go:139-209 | Every iteration preserves the invariant. Counters stay in [-1, len-1]. Every consumed entry lies at or before the cursor, so markers are consumed in list order. There is one record per site marker after the first. An open site has at least one host. |
| Assembler.AdvanceMoves | mirror-selector.go:154-209 | A counter moves only by one, and only when the visited node is the next unconsumed entry of its list. Conversely, when the node is the next entry of a list and of no list tested before it, that list's counter moves. |
| Assembler.ClassifyListed | mirror-selector.go:154-209 | On a well-formed list with every marker up to the cursor consumed, the next node is classified as the kind of the list it is in. |
| Assembler.StepKeepsComplete | mirror-selector.go:148-212 | On a well-formed list every iteration keeps every marker at or before the cursor consumed. |
| Assembler.WalkConsumesAllSites | mirror-selector.go:148-213 | On a well-formed list a successful walk consumes every site marker. |
| Assembler.WellFormedCount | mirror-selector.go:137-213 | On a well-formed list a successful parse yields exactly one record per site marker, or one record when there is none. A well-formed list has each marker list in document order, no node in two lists, no marker before the first country heading and no marker at a payload. |
| Assembler.MovesConsumed | mirror-selector.go:154-209 | Moving a counter onto the visited node keeps it inside its list and behind the cursor. |
| Assembler.StepShape | mirror-selector.go:148-212 | Only the counter of the visited node's kind moves. The cursor moves one node, or two when a site or package-URL payload is consumed, so a payload is never classified itself. Records are appended only at site markers. A line break, a country heading or a plain node always succeeds and leaves the open record unchanged. |
| Assembler.SiteStepOpensRecord | mirror-selector.go:160-174 | A site marker fails with SiteURLMissing exactly when the next sibling is missing or is not a `<tt>`. Otherwise it appends the open record, if one exists, and opens a fresh record. That record's hosts contain no "," and joined with "," give back the payload text, so they are exactly its comma-separated pieces. Its type, architectures and URLs are empty. |
| Assembler.PackageURLStepUpdatesProtocol | mirror-selector.go:175-199 | A missing or non-`<tt>` payload fails with PackageURLMissing. A failing endpoint passes its own error through. Otherwise, before the first site marker, the step fails with NoOpenSite. It succeeds exactly when the payload is there, the endpoint succeeds and a site is open. On success only the URL stored for this protocol changes, and it becomes this marker's endpoint (last write wins). Every other protocol keeps its URL. |
| Assembler.TypeStepReplacesType | mirror-selector.go:200-203 | A type marker changes only the open record's type. The new type is the trimmed text after "Type: ", or the whole trimmed text when it does not start with "Type: ", whatever the type was before. |
| Assembler.ArchStepReplacesArchitectures | mirror-selector.go:204-209 | An architecture marker changes only the open record's architectures. They contain no space, and joined with " " they give back the trimmed text after "Includes architectures: ", so they are exactly its space-separated pieces. |
| Assembler.ProtocolKey | mirror-selector.go:179-180 | The protocol key is read back from "Packages over " + protocol + ": ". |
| Assembler.EndpointByProtocol | mirror-selector.go:186-198 | HTTP: the parsed href with scheme "http", or BadPackageURL when parsing fails. rsync: scheme "rsync", the first host, and as path the payload text with its leading and trailing white space removed, or NoOpenSite when there are no hosts. Any other protocol: nil. |
| Assembler.PrefixedPayload | mirror-selector.go:203 | Trimming and removing a marker prefix from the prefix plus a payload that does not end in white space gives back the payload. |
| Assembler.ArchitecturesRoundTrip | mirror-selector.go:206-209 | A list of non-empty architecture names without white space is read back from the marker text that lists it. |
| Assembler.WalkExtends | mirror-selector.go:152-164 | The records held at any point of the walk are a proper prefix of the final records. So a record, once appended, is never changed or dropped and keeps the value it had when appended, and the end of the walk appends at least one more. The site counter never goes back. |
| Assembler.AliasingLosesFirstMirror | mirror-selector.go:146-164 | A two-mirror list parses to the records of "a" then "b". Read through the aliased `&s` pointers, both entries are "b". |
| Strings.TrimPrefix | mirror-selector.go:179 | With the prefix present, the prefix plus the result is the input. Without it, the input is unchanged. |
| Strings.TrimSuffix | mirror-selector.go:180 | With the suffix present, the result plus the suffix is the input. Without it, the input is unchanged. |
| Strings.TrimSpaceSpec | mirror-selector.go:197 | TrimSpace yields the part of the input between leading and trailing white space, and neither starts nor ends with white space. It is empty exactly when the input is all white space. |
| Strings.SplitSpec | mirror-selector.go:174 | Split yields one more piece than there are separators, and no piece contains the separator. |
| Strings.JoinSplit | mirror-selector.go:174 | Joining the pieces of a split with the same separator gives back the string. |
| Strings.SplitJoin | mirror-selector.go:209 | Splitting a join of separator-free pieces gives back the pieces. |
| Scoring.Score | mirror-selector.go:270-273 | The delivered site has score 0 and is otherwise unchanged. |
| Scoring.ScoringDispatcher | mirror-selector.go:254-262 | The dispatcher sends one Created per site, in order, then a single NoMore. It launches one scorer per site, and each delivers that site scored. |
| Scoring.ResultsAccumulator | mirror-selector.go:289-312 | The Go loop over the received messages returns what the accumulator fold returns, or None when the messages run out first. |
| Scoring.FoldCounts | mirror-selector.go:293-310 | After any messages, `scorers` is creations minus deliveries and `done` is whether a NoMore came. `results` holds the delivered scores in delivery order. |
| Scoring.OutstandingNeverNegative | mirror-selector.go:295-306 | If no delivery overtakes its creation, `scorers` is never negative. |
| Scoring.RunFold | mirror-selector.go:293-311 | Until it returns, the accumulator's next move depends only on the variables accumulated so far. |
| Scoring.ReturnsOnFirstCompletion | mirror-selector.go:297-309 | The accumulator returns only on a NoMore or a delivery, when `done` is set and `scorers` is 0. It returns at the first such message, with the scores collected up to it. |
| Scoring.AfterNoMore | mirror-selector.go:257-261 | Once NoMore has been received, every creation has been received, and every message still to come is a delivery. |
| Scoring.QuietBeforeLast | mirror-selector.go:297-309 | On a schedule of a dispatch, the accumulator does not return before the last message. |
| Scoring.AccumulatorCompletes | mirror-selector.go:289-312 | On a schedule of a dispatch, the accumulator returns exactly on the last message, not before. Its results hold one score per announced scorer, in delivery order, and are not sorted. |
| Scoring.NoScorersReturnsEmpty | mirror-selector.go:297-301 | With no sites, the only schedule is the single NoMore, and the accumulator returns empty results at once. |
| Scoring.PipelineDeliversAllScores | mirror-selector.go:254-312 | Whatever order the dispatcher's announcements and the scorers' deliveries arrive in, the accumulator returns one score of 0 per site. |

## Left out

- Command-line parsing with docopt (mirror-selector.go:95). It is a foreign library.
- Loading the document over HTTP or from a file (mirror-selector.go:101-117). This is I/O.
- XPath marker discovery (mirror-selector.go:122-128). The six marker lists are inputs, each a list of positions in document order.
- Inner text and `<tt>` tests are inputs: every node carries its inner text, whether it is a `<tt>`, and the href of its first child.
- An empty `<tt>` under an HTTP label is not modelled. In the code `SelectAttr` on its nil first child would panic; the model reads its href as the empty string.
- `url.Parse` is the parameter `parse`, a function that may fail. Only the scheme, host and path of `url.URL` are modelled.
- The goroutines, the channels and their buffer sizes (mirror-selector.go:74-84, 224, 258, 294). Only the ordering they guarantee is kept, as the `Schedule` predicate on traces. When the messages run out, the accumulator's result is None where Go would block.
- The accumulator receives scores through a pointer to the site in the code. The model passes the scored site as a value.
- The filter, probing and best-first heap are not implemented in the code and are not invented here: the filter is `if true`, the score is 0, and the heap is a comment.
- Timing and logging (mirror-selector.go:94-96, 119, 130-132, 215, 228-234). logger/logger.go is not part of this model.
- Strings.TrimSpace: only ASCII white space is trimmed. Unicode white space is not modelled.
- Assembler.ParseMirrorList: returns snapshot values of the records, not Go's aliased pointers (see Findings).

## Findings

| source | as written | input that shows it | evidently intended | confidence | as-written member | corrected member |
|---|---|---|---|---|---|---|
| mirror-selector.go:146-164 | `sites = append(sites, &s)` appends the address of the single loop variable `s`, so every entry of `sites` points to the last record. | A list with two mirrors "a" and "b" under one country heading: both entries read as "b". | Each entry holds the record as it was when it was appended: "a", then "b". | not executed | Assembler.AliasingLosesFirstMirror | Assembler.WalkExtends |
