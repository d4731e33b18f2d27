/**
 * The mirror-list record assembler: the loop in `main` that walks the children
 * of the content div of the Debian mirror list and rebuilds one `site` record
 * per mirror from six lists of marker nodes found beforehand.
 *
 * A node is identified by its position among the content div's children; a
 * marker list is the list of positions that its XPath query returned, in
 * document order. Go's `node == list[i+1]` pointer comparison is therefore a
 * comparison of positions.
 */
module Assembler {
  import opened Common
  import opened Strings
  import opened Records

  /** A child of the content div: its inner text, whether it is a <tt> element, and the href of its first child ("" when it has none). */
  datatype Node = Node(text: string, isTT: bool, href: string)

  /** The content div's children and the positions of the six kinds of marker among them. */
  datatype Document = Document(
    siblings: seq<Node>,
    breaks: seq<nat>,
    countries: seq<nat>,
    siteMarkers: seq<nat>,
    packageURLs: seq<nat>,
    types: seq<nat>,
    archs: seq<nat>)

  /** Why the program stops: log.Fatalln, or a run-time panic. */
  datatype Failure =
    | NoCountries        // countryDivs[0] on an empty list
    | NoPrevSibling      // the first country heading is the first child, so `node` is nil
    | SiteURLMissing     // "Parsing site URL failed"
    | PackageURLMissing  // "Parsing package URL failed"
    | BadPackageURL      // url.Parse rejected the href of an HTTP package URL
    | NoOpenSite         // a package URL before any site: nil map write, or s.Hosts[0] on nil Hosts

  /** The six marker counters: the index of the last entry of each list that has been consumed. */
  datatype Indices = Indices(brk: int, country: int, site: int, packageURL: int, typ: int, arch: int)

  const Unstarted := Indices(-1, -1, -1, -1, -1, -1)

  /** How the node under the cursor is classified, in the order the loop tests them. */
  datatype Kind = BreakMarker | CountryMarker | SiteMarker | PackageURLMarker | TypeMarker | ArchMarker | Plain

  /**
   * The loop's variables: `node` is the position of the node last visited, `current`
   * is the record `s` being filled in, and `sites` the records appended so far.
   */
  datatype State = State(node: nat, ix: Indices, current: Site, sites: seq<Site>)

  /** The marker lists are children of the content div, so every entry is a sibling position. */
  predicate WellPlaced(d: Document) {
    && (forall k :: 0 <= k < |d.breaks| ==> d.breaks[k] < |d.siblings|)
    && (forall k :: 0 <= k < |d.countries| ==> d.countries[k] < |d.siblings|)
    && (forall k :: 0 <= k < |d.siteMarkers| ==> d.siteMarkers[k] < |d.siblings|)
    && (forall k :: 0 <= k < |d.packageURLs| ==> d.packageURLs[k] < |d.siblings|)
    && (forall k :: 0 <= k < |d.types| ==> d.types[k] < |d.siblings|)
    && (forall k :: 0 <= k < |d.archs| ==> d.archs[k] < |d.siblings|)
  }

  /** `index+1 < len(list) && node == list[index+1]`: the node at `p` is the list's next unconsumed entry. */
  predicate IsNext(list: seq<nat>, index: int, p: nat) {
    0 <= index + 1 < |list| && list[index + 1] == p
  }

  function Classify(d: Document, ix: Indices, p: nat): Kind {
    if IsNext(d.breaks, ix.brk, p) then BreakMarker
    else if IsNext(d.countries, ix.country, p) then CountryMarker
    else if IsNext(d.siteMarkers, ix.site, p) then SiteMarker
    else if IsNext(d.packageURLs, ix.packageURL, p) then PackageURLMarker
    else if IsNext(d.types, ix.typ, p) then TypeMarker
    else if IsNext(d.archs, ix.arch, p) then ArchMarker
    else Plain
  }

  /** The counter of the classified kind goes up by one. */
  function Advance(ix: Indices, k: Kind): Indices {
    match k
    case BreakMarker => ix.(brk := ix.brk + 1)
    case CountryMarker => ix.(country := ix.country + 1)
    case SiteMarker => ix.(site := ix.site + 1)
    case PackageURLMarker => ix.(packageURL := ix.packageURL + 1)
    case TypeMarker => ix.(typ := ix.typ + 1)
    case ArchMarker => ix.(arch := ix.arch + 1)
    case Plain => ix
  }

  /** How many nodes a marker of kind `k` occupies: site and package-URL markers are followed by their payload. */
  function Width(k: Kind): nat {
    if k == SiteMarker || k == PackageURLMarker then 2 else 1
  }

  /** A counter either stays, or moves by one onto the list entry at `p`. */
  predicate Moves(list: seq<nat>, i: int, j: int, p: nat) {
    j == i || (j == i + 1 && IsNext(list, i, p))
  }

  /** The counters stay in [-1, len(list)-1], and every consumed entry lies at or before the cursor. */
  predicate Consumed(list: seq<nat>, index: int, node: nat) {
    -1 <= index < |list| && forall k :: 0 <= k <= index ==> list[k] <= node
  }

  predicate IndicesValid(d: Document, ix: Indices, node: nat) {
    && Consumed(d.breaks, ix.brk, node)
    && Consumed(d.countries, ix.country, node)
    && Consumed(d.siteMarkers, ix.site, node)
    && Consumed(d.packageURLs, ix.packageURL, node)
    && Consumed(d.types, ix.typ, node)
    && Consumed(d.archs, ix.arch, node)
  }

  /**
   * What every state of the walk satisfies (kept by StepKeepsInv): valid counters;
   * one record appended per site marker after the first; an open site always has a host.
   */
  predicate Inv(d: Document, st: State) {
    && st.node < |d.siblings|
    && IndicesValid(d, st.ix, st.node)
    && |st.sites| == (if st.ix.site <= 0 then 0 else st.ix.site)
    && (st.ix.site >= 0 ==> |st.current.hosts| >= 1)
  }

  const PACKAGES_PREFIX := "Packages over "
  const PACKAGES_SUFFIX := ": "
  const TYPE_PREFIX := "Type: "
  const ARCH_PREFIX := "Includes architectures: "

  /** The protocol named by a package-URL marker's text. */
  function ProtocolOf(text: string): string {
    TrimSuffix(TrimPrefix(text, PACKAGES_PREFIX), PACKAGES_SUFFIX)
  }

  /** A protocol name is read back from the marker text that announces it. */
  lemma ProtocolKey(protocol: string)
    ensures ProtocolOf(PACKAGES_PREFIX + protocol + PACKAGES_SUFFIX) == protocol
  {
    var text := PACKAGES_PREFIX + protocol + PACKAGES_SUFFIX;
    assert HasPrefix(text, PACKAGES_PREFIX) by {
      assert text[..|PACKAGES_PREFIX|] == PACKAGES_PREFIX;
    }
    var rest := TrimPrefix(text, PACKAGES_PREFIX);
    assert rest == protocol + PACKAGES_SUFFIX;
    assert HasSuffix(rest, PACKAGES_SUFFIX) by {
      assert rest[|rest| - |PACKAGES_SUFFIX|..] == PACKAGES_SUFFIX;
    }
  }

  /** The site type of a type marker's text. */
  function TypeOf(text: string): string {
    TrimPrefix(TrimSpace(text), TYPE_PREFIX)
  }

  /** The architecture list of an architecture marker's text. */
  function ArchListOf(text: string): string {
    TrimPrefix(TrimSpace(text), ARCH_PREFIX)
  }

  /** Trimming a prefix that starts with a non-space off `prefix + s`, where `s` ends with a non-space, gives back `s`. */
  lemma PrefixedPayload(prefix: string, s: string)
    requires prefix != [] && !IsSpace(prefix[0])
    requires s != [] && !IsSpace(s[|s| - 1])
    ensures TrimPrefix(TrimSpace(prefix + s), prefix) == s
  {
    var text := prefix + s;
    assert text[0] == prefix[0] && text[|text| - 1] == s[|s| - 1];
    TrimSpaceOfTrimmed(text);
    assert text[..|prefix|] == prefix;
  }

  /** A list of architecture names, each non-empty and free of white space, is read back from the marker text that lists it. */
  lemma ArchitecturesRoundTrip(archs: seq<string>)
    requires |archs| >= 1
    requires forall i :: 0 <= i < |archs| ==> archs[i] != [] && forall j :: 0 <= j < |archs[i]| ==> !IsSpace(archs[i][j])
    ensures Split(ArchListOf(ARCH_PREFIX + Join(archs, ' ')), ' ') == archs
  {
    var list := Join(archs, ' ');
    JoinEnds(archs, ' ');
    assert ARCH_PREFIX[0] == 'I';
    PrefixedPayload(ARCH_PREFIX, list);
    assert IsSpace(' ');
    assert forall i :: 0 <= i < |archs| ==> ' ' !in archs[i];
    SplitJoin(archs, ' ');
  }

  /** A join of non-empty pieces is non-empty and ends with the last piece's last character. */
  lemma {:induction false} JoinEnds(parts: seq<string>, sep: char)
    requires |parts| >= 1 && parts[|parts| - 1] != []
    ensures Join(parts, sep) != []
    ensures Join(parts, sep)[|Join(parts, sep)| - 1] == parts[|parts| - 1][|parts[|parts| - 1]| - 1]
  {
    if |parts| > 1 {
      JoinEnds(parts[1..], sep);
    }
  }

  /**
   * The URL stored for a package protocol: for "HTTP" the parsed href with its
   * scheme forced to http, for "rsync" the canonical host plus the trimmed payload
   * text as path, and nil for every other protocol.
   */
  function Endpoint(protocol: string, payload: Node, hosts: seq<string>, parse: string -> Option<Url>): Result<Option<Url>, Failure> {
    if protocol == "HTTP" then
      match parse(payload.href)
      case None => Err(BadPackageURL)
      case Some(u) => Ok(Some(u.(scheme := "http")))
    else if protocol == "rsync" then
      if |hosts| == 0 then Err(NoOpenSite)
      else Ok(Some(Url("rsync", hosts[0], TrimSpace(payload.text))))
    else Ok(None)
  }

  /**
   * The endpoint depends on the protocol alone: an HTTP endpoint keeps the parsed
   * host and path under the scheme "http"; an rsync endpoint is the canonical host
   * with the payload text, trimmed, as path; any other protocol stores nil. It fails
   * exactly when the href does not parse (HTTP) or there is no host (rsync).
   */
  lemma EndpointByProtocol(protocol: string, payload: Node, hosts: seq<string>, parse: string -> Option<Url>)
    ensures var r := Endpoint(protocol, payload, hosts, parse);
      && (r.Err? <==> (protocol == "HTTP" && parse(payload.href).None?) || (protocol == "rsync" && hosts == []))
      && (r.Err? ==> r.error == (if protocol == "HTTP" then BadPackageURL else NoOpenSite))
      && (r.Ok? && protocol == "HTTP" ==>
            r.value == Some(Url("http", parse(payload.href).value.host, parse(payload.href).value.path)))
      && (r.Ok? && protocol == "rsync" ==>
            && r.value.Some? && r.value.value.scheme == "rsync" && r.value.value.host == hosts[0]
            && var path := r.value.value.path;
            && (exists i :: 0 <= i <= |payload.text| - |path| && path == payload.text[i..i + |path|]
                  && AllSpace(payload.text[..i]) && AllSpace(payload.text[i + |path|..]))
            && (path == [] || (!IsSpace(path[0]) && !IsSpace(path[|path| - 1])))
            && (path == [] <==> AllSpace(payload.text)))
      && (protocol != "HTTP" && protocol != "rsync" ==> r == Ok(None))
  {
    if protocol == "rsync" && hosts != [] {
      TrimSpaceSpec(payload.text);
    }
  }

  /** True when the node after position `p` exists and is a <tt>: the payload of a site or package-URL marker. */
  predicate HasPayload(d: Document, p: nat) {
    p + 1 < |d.siblings| && d.siblings[p + 1].isTT
  }

  /**
   * A site marker at `p`: the open record (if any) is appended, a fresh record is
   * opened, and its hosts are read from the <tt> payload that follows, which is consumed.
   */
  function SiteStep(d: Document, st: State, p: nat): Result<State, Failure>
    requires p < |d.siblings|
  {
    var sites := if st.ix.site != -1 then st.sites + [st.current] else st.sites;
    if !HasPayload(d, p) then Err(SiteURLMissing)
    else Ok(State(p + 1, st.ix.(site := st.ix.site + 1), EmptySite.(hosts := Split(d.siblings[p + 1].text, ',')), sites))
  }

  /**
   * A site marker fails exactly when its payload is missing or not a <tt>. Otherwise
   * the record open before it is emitted (if there was one), the payload is consumed,
   * and the new record holds nothing but the comma-separated pieces of the payload
   * text: a type, architectures or URLs seen before it are dropped.
   */
  lemma SiteStepOpensRecord(d: Document, st: State, p: nat)
    requires p < |d.siblings|
    ensures var r := SiteStep(d, st, p);
      && (r.Err? <==> !HasPayload(d, p))
      && (r.Err? ==> r.error == SiteURLMissing)
      && (r.Ok? ==>
            && r.value.node == p + 1
            && r.value.ix == st.ix.(site := st.ix.site + 1)
            && r.value.sites == st.sites + (if st.ix.site == -1 then [] else [st.current])
            && Join(r.value.current.hosts, ',') == d.siblings[p + 1].text
            && (forall i :: 0 <= i < |r.value.current.hosts| ==> ',' !in r.value.current.hosts[i])
            && r.value.current.(hosts := []) == EmptySite)
  {
    if HasPayload(d, p) {
      JoinSplit(d.siblings[p + 1].text, ',');
      SplitSpec(d.siblings[p + 1].text, ',');
    }
  }

  /**
   * A package-URL marker at `p`: the protocol is read from its text, the URL from
   * the <tt> payload that follows (which is consumed), and the URL is stored under
   * the protocol in the open record, replacing any earlier one.
   */
  function PackageURLStep(d: Document, parse: string -> Option<Url>, st: State, p: nat): Result<State, Failure>
    requires p < |d.siblings|
  {
    var protocol := ProtocolOf(d.siblings[p].text);
    if !HasPayload(d, p) then Err(PackageURLMissing)
    else
      match Endpoint(protocol, d.siblings[p + 1], st.current.hosts, parse)
      case Err(f) => Err(f)
      case Ok(url) =>
        if st.ix.site == -1 then Err(NoOpenSite)
        else
          var current := st.current.(packProtocols := st.current.packProtocols[protocol := url]);
          Ok(State(p + 1, st.ix.(packageURL := st.ix.packageURL + 1), current, st.sites))
  }

  /**
   * A package-URL marker fails when its payload is missing, with the endpoint's own
   * error when that fails, and otherwise before the first site marker; it succeeds
   * in every other case. When it succeeds it consumes its payload and changes only
   * the open record's URL for its protocol, which becomes the marker's endpoint
   * whatever it was before; every other protocol keeps its URL.
   */
  lemma PackageURLStepUpdatesProtocol(d: Document, parse: string -> Option<Url>, st: State, p: nat)
    requires p < |d.siblings|
    ensures var r := PackageURLStep(d, parse, st, p);
      var endpoint := if HasPayload(d, p) then Endpoint(ProtocolOf(d.siblings[p].text), d.siblings[p + 1], st.current.hosts, parse) else Ok(None);
      && (!HasPayload(d, p) ==> r == Err(PackageURLMissing))
      && (HasPayload(d, p) && endpoint.Err? ==> r == Err(endpoint.error))
      && (HasPayload(d, p) && endpoint.Ok? && st.ix.site == -1 ==> r == Err(NoOpenSite))
      && (r.Ok? <==> HasPayload(d, p) && endpoint.Ok? && st.ix.site != -1)
      && (r.Ok? ==>
            var key := ProtocolOf(d.siblings[p].text);
            var before := st.current.packProtocols;
            var after := r.value.current.packProtocols;
            && r.value.node == p + 1
            && r.value.ix == st.ix.(packageURL := st.ix.packageURL + 1)
            && r.value.sites == st.sites
            && r.value.current.(packProtocols := before) == st.current
            && key in after
            && Endpoint(key, d.siblings[p + 1], st.current.hosts, parse) == Ok(after[key])
            && (forall k :: k != key ==> (k in after <==> k in before))
            && (forall k :: k != key && k in before ==> after[k] == before[k]))
  {
  }

  /** A type marker replaces the open record's type with the text after "Type: ". */
  function TypeStep(d: Document, st: State, p: nat): State
    requires p < |d.siblings|
  {
    st.(node := p, ix := st.ix.(typ := st.ix.typ + 1),
        current := st.current.(siteType := TypeOf(d.siblings[p].text)))
  }

  /**
   * A type marker changes only the open record's type, whatever it was before, to
   * the marker's trimmed text after "Type: ".
   */
  lemma TypeStepReplacesType(d: Document, st: State, p: nat)
    requires p < |d.siblings|
    ensures var r := TypeStep(d, st, p);
      && r.node == p && r.ix == st.ix.(typ := st.ix.typ + 1) && r.sites == st.sites
      && r.current.(siteType := st.current.siteType) == st.current
      && (HasPrefix(TrimSpace(d.siblings[p].text), TYPE_PREFIX) ==>
            TYPE_PREFIX + r.current.siteType == TrimSpace(d.siblings[p].text))
      && (!HasPrefix(TrimSpace(d.siblings[p].text), TYPE_PREFIX) ==>
            r.current.siteType == TrimSpace(d.siblings[p].text))
  {
  }

  /** An architecture marker replaces the open record's architectures with the space-separated list after "Includes architectures: ". */
  function ArchStep(d: Document, st: State, p: nat): State
    requires p < |d.siblings|
  {
    st.(node := p, ix := st.ix.(arch := st.ix.arch + 1),
        current := st.current.(architectures := Split(ArchListOf(d.siblings[p].text), ' ')))
  }

  /**
   * An architecture marker changes only the open record's architectures, whatever
   * they were before, to the space-separated pieces of the list after
   * "Includes architectures: ".
   */
  lemma ArchStepReplacesArchitectures(d: Document, st: State, p: nat)
    requires p < |d.siblings|
    ensures var r := ArchStep(d, st, p);
      && r.node == p && r.ix == st.ix.(arch := st.ix.arch + 1) && r.sites == st.sites
      && r.current.(architectures := st.current.architectures) == st.current
      && Join(r.current.architectures, ' ') == ArchListOf(d.siblings[p].text)
      && (forall i :: 0 <= i < |r.current.architectures| ==> ' ' !in r.current.architectures[i])
  {
    JoinSplit(ArchListOf(d.siblings[p].text), ' ');
    SplitSpec(ArchListOf(d.siblings[p].text), ' ');
  }

  /**
   * One iteration of the loop: visit the next sibling and act on its kind. Only
   * the counter of that kind moves; the cursor moves one node, or two when the
   * marker's payload is consumed; records are appended only at site markers.
   */
  function Step(d: Document, parse: string -> Option<Url>, st: State): Result<State, Failure>
    requires st.node + 1 < |d.siblings|
  {
    var p := st.node + 1;
    match Classify(d, st.ix, p)
    case BreakMarker => Ok(st.(node := p, ix := Advance(st.ix, BreakMarker)))
    case CountryMarker => Ok(st.(node := p, ix := Advance(st.ix, CountryMarker)))
    case SiteMarker => SiteStep(d, st, p)
    case PackageURLMarker => PackageURLStep(d, parse, st, p)
    case TypeMarker => Ok(TypeStep(d, st, p))
    case ArchMarker => Ok(ArchStep(d, st, p))
    case Plain => Ok(st.(node := p))
  }

  /**
   * Only the counter of the visited node's kind moves; the cursor moves one node,
   * or two when the marker's payload is consumed; records are appended only at
   * site markers.
   */
  lemma StepShape(d: Document, parse: string -> Option<Url>, st: State)
    requires st.node + 1 < |d.siblings|
    ensures var r := Step(d, parse, st); var k := Classify(d, st.ix, st.node + 1);
      && (r.Ok? ==> r.value.node == st.node + Width(k))
      && (r.Ok? ==> r.value.ix == Advance(st.ix, k))
      && (r.Ok? && k != SiteMarker ==> r.value.sites == st.sites)
      && ((k == BreakMarker || k == CountryMarker || k == Plain) ==> r.Ok? && r.value.current == st.current)
  {
  }

  /**
   * A marker counter only ever moves by one, and only when the visited node is the
   * next unconsumed entry of its list; conversely, when the node is the next entry
   * of a list and of no list tested before it, that list's counter moves.
   */
  lemma AdvanceMoves(d: Document, ix: Indices, p: nat)
    ensures var ix' := Advance(ix, Classify(d, ix, p));
      && Moves(d.breaks, ix.brk, ix'.brk, p)
      && Moves(d.countries, ix.country, ix'.country, p)
      && Moves(d.siteMarkers, ix.site, ix'.site, p)
      && Moves(d.packageURLs, ix.packageURL, ix'.packageURL, p)
      && Moves(d.types, ix.typ, ix'.typ, p)
      && Moves(d.archs, ix.arch, ix'.arch, p)
    ensures var ix' := Advance(ix, Classify(d, ix, p));
      var isBreak, isCountry, isSite := IsNext(d.breaks, ix.brk, p), IsNext(d.countries, ix.country, p), IsNext(d.siteMarkers, ix.site, p);
      var isPackageURL, isType, isArch := IsNext(d.packageURLs, ix.packageURL, p), IsNext(d.types, ix.typ, p), IsNext(d.archs, ix.arch, p);
      var earlier := isBreak || isCountry || isSite || isPackageURL || isType;
      && (isBreak ==> ix'.brk == ix.brk + 1)
      && (!isBreak && isCountry ==> ix'.country == ix.country + 1)
      && (!isBreak && !isCountry && isSite ==> ix'.site == ix.site + 1)
      && (!isBreak && !isCountry && !isSite && isPackageURL ==> ix'.packageURL == ix.packageURL + 1)
      && (!isBreak && !isCountry && !isSite && !isPackageURL && isType ==> ix'.typ == ix.typ + 1)
      && (!earlier && isArch ==> ix'.arch == ix.arch + 1)
  {
  }

  /** Moving a counter onto the visited node keeps it within its list and behind the cursor. */
  lemma MovesConsumed(list: seq<nat>, i: int, j: int, prev: nat, node: nat)
    requires Consumed(list, i, prev) && Moves(list, i, j, prev + 1) && prev < node
    ensures Consumed(list, j, node)
  {
  }

  /** Every iteration keeps the walk invariant Inv. */
  lemma StepKeepsInv(d: Document, parse: string -> Option<Url>, st: State)
    requires st.node + 1 < |d.siblings| && Inv(d, st)
    requires Step(d, parse, st).Ok?
    ensures Inv(d, Step(d, parse, st).value)
  {
    var p := st.node + 1;
    var next := Step(d, parse, st).value;
    var ix, ix' := st.ix, next.ix;
    StepShape(d, parse, st);
    AdvanceMoves(d, ix, p);
    MovesConsumed(d.breaks, ix.brk, ix'.brk, st.node, next.node);
    MovesConsumed(d.countries, ix.country, ix'.country, st.node, next.node);
    MovesConsumed(d.siteMarkers, ix.site, ix'.site, st.node, next.node);
    MovesConsumed(d.packageURLs, ix.packageURL, ix'.packageURL, st.node, next.node);
    MovesConsumed(d.types, ix.typ, ix'.typ, st.node, next.node);
    MovesConsumed(d.archs, ix.arch, ix'.arch, st.node, next.node);
    match Classify(d, ix, p)
    case SiteMarker =>
      SiteStepOpensRecord(d, st, p);
      SplitSpec(d.siblings[p + 1].text, ',');
      assert |next.current.hosts| == Occurrences(d.siblings[p + 1].text, ',') + 1;
    case PackageURLMarker =>
    case TypeMarker =>
    case ArchMarker =>
    case BreakMarker =>
    case CountryMarker =>
    case Plain =>
  }

  function Max(a: int, b: int): int {
    if a < b then b else a
  }

  /**
   * The rest of the loop from state `st`: at the end of the siblings the open
   * record is appended. Records once appended are never changed or dropped, and
   * the site counter never goes back.
   */
  function Walk(d: Document, parse: string -> Option<Url>, st: State): Result<State, Failure>
    requires st.node < |d.siblings|
    decreases |d.siblings| - st.node
  {
    if st.node + 1 == |d.siblings| then Ok(st.(sites := st.sites + [st.current]))
    else
      match Step(d, parse, st)
      case Err(f) => Err(f)
      case Ok(next) => Walk(d, parse, next)
  }

  /**
   * Records once appended are never changed or dropped, at least one more is
   * appended before the walk ends, and the site counter never goes back.
   */
  lemma {:induction false} WalkExtends(d: Document, parse: string -> Option<Url>, st: State)
    requires st.node < |d.siblings|
    requires Walk(d, parse, st).Ok?
    ensures st.sites < Walk(d, parse, st).value.sites
    ensures st.ix.site <= Walk(d, parse, st).value.ix.site
    decreases |d.siblings| - st.node
  {
    if st.node + 1 < |d.siblings| {
      var next := Step(d, parse, st).value;
      assert Walk(d, parse, st) == Walk(d, parse, next);
      if Classify(d, st.ix, st.node + 1) == SiteMarker {
        SiteStepOpensRecord(d, st, st.node + 1);
      }
      WalkExtends(d, parse, next);
    }
  }

  /**
   * From a state meeting the walk invariant Inv, a successful walk ends with valid
   * counters and max(1, site markers consumed) records: the first site marker
   * appends nothing, each later one appends the previous record, and the end of
   * the siblings appends the open one.
   */
  lemma {:induction false} WalkCount(d: Document, parse: string -> Option<Url>, st: State)
    requires Inv(d, st)
    requires Walk(d, parse, st).Ok?
    ensures var fin := Walk(d, parse, st).value;
      && IndicesValid(d, fin.ix, fin.node)
      && |fin.sites| == Max(1, fin.ix.site + 1)
    decreases |d.siblings| - st.node
  {
    WalkKeepsIndices(d, parse, st);
    if st.node + 1 < |d.siblings| {
      var next := Step(d, parse, st).value;
      assert Walk(d, parse, st) == Walk(d, parse, next);
      StepKeepsInv(d, parse, st);
      WalkCount(d, parse, next);
    }
  }

  /** From a state meeting Inv, a successful walk ends with valid counters. */
  lemma {:induction false} WalkKeepsIndices(d: Document, parse: string -> Option<Url>, st: State)
    requires Inv(d, st)
    requires Walk(d, parse, st).Ok?
    ensures IndicesValid(d, Walk(d, parse, st).value.ix, Walk(d, parse, st).value.node)
    decreases |d.siblings| - st.node
  {
    if st.node + 1 < |d.siblings| {
      var next := Step(d, parse, st).value;
      assert Walk(d, parse, st) == Walk(d, parse, next);
      StepKeepsInv(d, parse, st);
      WalkKeepsIndices(d, parse, next);
    }
  }

  /**
   * At the end of the siblings the open record is appended: a successful walk's
   * last record is the record open when the walk ends, and everything before it
   * was appended at site markers.
   */
  lemma {:induction false} WalkAppendsOpen(d: Document, parse: string -> Option<Url>, st: State)
    requires st.node < |d.siblings|
    requires Walk(d, parse, st).Ok?
    ensures var fin := Walk(d, parse, st).value;
      && fin.node + 1 == |d.siblings|
      && |fin.sites| >= 1
      && fin.sites[|fin.sites| - 1] == fin.current
    decreases |d.siblings| - st.node
  {
    if st.node + 1 < |d.siblings| {
      var next := Step(d, parse, st).value;
      assert Walk(d, parse, st) == Walk(d, parse, next);
      StepShape(d, parse, st);
      WalkAppendsOpen(d, parse, next);
    }
  }

  /** The loop's state when it starts: the cursor on the first country heading's previous sibling. */
  function Start(d: Document): (st: State)
    requires WellPlaced(d) && |d.countries| > 0 && d.countries[0] > 0
    ensures Inv(d, st) && st.sites == []
  {
    State(d.countries[0] - 1, Unstarted, EmptySite, [])
  }

  /**
   * The whole parse. It fails when there is no country heading or the first one has
   * no previous sibling; otherwise it appends max(1, site markers consumed) records,
   * which is at least one and at most max(1, number of site markers).
   */
  function Assemble(d: Document, parse: string -> Option<Url>): (r: Result<seq<Site>, Failure>)
    requires WellPlaced(d)
    ensures |d.countries| == 0 ==> r == Err(NoCountries)
    ensures |d.countries| > 0 && d.countries[0] == 0 ==> r == Err(NoPrevSibling)
    ensures r.Ok? ==> 1 <= |r.value| <= Max(1, |d.siteMarkers|)
  {
    if |d.countries| == 0 then Err(NoCountries)
    else if d.countries[0] == 0 then Err(NoPrevSibling)
    else
      match Walk(d, parse, Start(d))
      case Err(f) => Err(f)
      case Ok(fin) =>
        WalkCount(d, parse, Start(d));
        Ok(fin.sites)
  }


  /** In document order and without repeats, as an XPath query returns its nodes. */
  predicate Increasing(list: seq<nat>) {
    forall a, b :: 0 <= a < b < |list| ==> list[a] < list[b]
  }

  /** No position is in both lists. */
  predicate Apart(a: seq<nat>, b: seq<nat>) {
    forall x :: x in a ==> x !in b
  }

  /** No entry of `list` lies before `start`. */
  predicate From(list: seq<nat>, start: nat) {
    forall k :: 0 <= k < |list| ==> start <= list[k]
  }

  /** The node at `p` is in none of the marker lists. */
  predicate Unlisted(d: Document, p: nat) {
    p !in d.breaks && p !in d.countries && p !in d.siteMarkers && p !in d.packageURLs && p !in d.types && p !in d.archs
  }

  /** Every marker list is in document order without repeats. */
  predicate InOrder(d: Document) {
    && Increasing(d.breaks) && Increasing(d.countries) && Increasing(d.siteMarkers)
    && Increasing(d.packageURLs) && Increasing(d.types) && Increasing(d.archs)
  }

  /** No node is in two marker lists. */
  predicate Disjoint(d: Document) {
    && Apart(d.breaks, d.countries) && Apart(d.breaks, d.siteMarkers) && Apart(d.breaks, d.packageURLs)
    && Apart(d.breaks, d.types) && Apart(d.breaks, d.archs)
    && Apart(d.countries, d.siteMarkers) && Apart(d.countries, d.packageURLs)
    && Apart(d.countries, d.types) && Apart(d.countries, d.archs)
    && Apart(d.siteMarkers, d.packageURLs) && Apart(d.siteMarkers, d.types) && Apart(d.siteMarkers, d.archs)
    && Apart(d.packageURLs, d.types) && Apart(d.packageURLs, d.archs)
    && Apart(d.types, d.archs)
  }

  /** No marker comes before the first country heading. */
  predicate AfterFirstHeading(d: Document)
    requires |d.countries| > 0
  {
    && From(d.breaks, d.countries[0]) && From(d.siteMarkers, d.countries[0])
    && From(d.packageURLs, d.countries[0]) && From(d.types, d.countries[0]) && From(d.archs, d.countries[0])
  }

  /** The payload after a site or package-URL marker is no marker. */
  predicate PayloadsUnlisted(d: Document) {
    && (forall x :: x in d.siteMarkers ==> Unlisted(d, x + 1))
    && (forall x :: x in d.packageURLs ==> Unlisted(d, x + 1))
  }

  /**
   * A mirror list laid out as the loop expects: each marker list in document order,
   * no node in two lists, no marker before the first country heading, and no
   * marker where a site or package-URL marker's payload sits.
   */
  predicate WellFormed(d: Document) {
    && WellPlaced(d)
    && |d.countries| > 0
    && InOrder(d)
    && Disjoint(d)
    && AfterFirstHeading(d)
    && PayloadsUnlisted(d)
  }

  /** Every entry of `list` at or before the cursor has been consumed. */
  predicate Complete(list: seq<nat>, index: int, node: nat) {
    forall k :: 0 <= k < |list| && list[k] <= node ==> k <= index
  }

  predicate AllComplete(d: Document, ix: Indices, node: nat) {
    && Complete(d.breaks, ix.brk, node)
    && Complete(d.countries, ix.country, node)
    && Complete(d.siteMarkers, ix.site, node)
    && Complete(d.packageURLs, ix.packageURL, node)
    && Complete(d.types, ix.typ, node)
    && Complete(d.archs, ix.arch, node)
  }

  /** When nothing up to the cursor is left over, an entry of the list at the next node is the list's next unconsumed entry. */
  lemma NextEntry(list: seq<nat>, i: int, node: nat)
    requires Increasing(list) && Consumed(list, i, node) && Complete(list, i, node)
    requires node + 1 in list
    ensures IsNext(list, i, node + 1)
  {
    var j :| 0 <= j < |list| && list[j] == node + 1;
    assert i < j;
  }

  /** A counter that moves exactly when its list has an entry at the next node keeps nothing up to the new cursor left over. */
  lemma ListStep(list: seq<nat>, i: int, j: int, node: nat, w: nat)
    requires Increasing(list) && Consumed(list, i, node) && Complete(list, i, node)
    requires node + 1 in list ==> j == i + 1
    requires node + 1 !in list ==> j == i
    requires w == 1 || (w == 2 && node + 2 !in list)
    ensures Complete(list, j, node + w)
  {
    if node + 1 in list {
      NextEntry(list, i, node);
    }
    forall k | 0 <= k < |list| && list[k] <= node + w
      ensures k <= j
    {
      if node < list[k] {
        assert list[k] == list[i + 1];
      }
    }
  }

  /** On a well-formed list with nothing up to the cursor left over, the next node is classified as the list it is in. */
  lemma ClassifyListed(d: Document, ix: Indices, node: nat)
    requires WellFormed(d) && IndicesValid(d, ix, node) && AllComplete(d, ix, node)
    ensures var p, k := node + 1, Classify(d, ix, node + 1);
      && (p in d.breaks ==> k == BreakMarker)
      && (p in d.countries ==> k == CountryMarker)
      && (p in d.siteMarkers ==> k == SiteMarker)
      && (p in d.packageURLs ==> k == PackageURLMarker)
      && (p in d.types ==> k == TypeMarker)
      && (p in d.archs ==> k == ArchMarker)
  {
    var p := node + 1;
    if p in d.breaks { NextEntry(d.breaks, ix.brk, node); }
    if p in d.countries { NextEntry(d.countries, ix.country, node); }
    if p in d.siteMarkers { NextEntry(d.siteMarkers, ix.site, node); }
    if p in d.packageURLs { NextEntry(d.packageURLs, ix.packageURL, node); }
    if p in d.types { NextEntry(d.types, ix.typ, node); }
    if p in d.archs { NextEntry(d.archs, ix.arch, node); }
  }

  /**
   * On a well-formed list, moving the counters and the cursor past the next node
   * keeps every marker up to the cursor consumed: the node is recognised as the
   * marker it is, and a payload it skips is no marker.
   */
  lemma AdvanceKeepsComplete(d: Document, ix: Indices, node: nat, ix': Indices, node': nat)
    requires WellFormed(d) && IndicesValid(d, ix, node) && AllComplete(d, ix, node)
    requires ix' == Advance(ix, Classify(d, ix, node + 1)) && node' == node + Width(Classify(d, ix, node + 1))
    ensures AllComplete(d, ix', node')
  {
    var p := node + 1;
    var k := Classify(d, ix, p);
    var w := Width(k);
    AdvanceMoves(d, ix, p);
    ClassifyListed(d, ix, node);
    if w == 2 {
      assert p in d.siteMarkers || p in d.packageURLs;
      assert Unlisted(d, p + 1);
    }
    ListStep(d.breaks, ix.brk, ix'.brk, node, w);
    ListStep(d.countries, ix.country, ix'.country, node, w);
    ListStep(d.siteMarkers, ix.site, ix'.site, node, w);
    ListStep(d.packageURLs, ix.packageURL, ix'.packageURL, node, w);
    ListStep(d.types, ix.typ, ix'.typ, node, w);
    ListStep(d.archs, ix.arch, ix'.arch, node, w);
  }

  /** On a well-formed list every step keeps every marker up to the cursor consumed. */
  lemma StepKeepsComplete(d: Document, parse: string -> Option<Url>, st: State)
    requires WellFormed(d) && st.node + 1 < |d.siblings| && Inv(d, st) && AllComplete(d, st.ix, st.node)
    requires Step(d, parse, st).Ok?
    ensures AllComplete(d, Step(d, parse, st).value.ix, Step(d, parse, st).value.node)
  {
    var next := Step(d, parse, st).value;
    StepShape(d, parse, st);
    AdvanceKeepsComplete(d, st.ix, st.node, next.ix, next.node);
  }

  /** On a well-formed list a successful walk consumes every site marker. */
  lemma {:induction false} WalkConsumesAllSites(d: Document, parse: string -> Option<Url>, st: State)
    requires WellFormed(d) && Inv(d, st) && AllComplete(d, st.ix, st.node)
    requires Walk(d, parse, st).Ok?
    ensures Walk(d, parse, st).value.ix.site == |d.siteMarkers| - 1
    decreases |d.siblings| - st.node
  {
    if st.node + 1 < |d.siblings| {
      var next := Step(d, parse, st).value;
      assert Walk(d, parse, st) == Walk(d, parse, next);
      StepKeepsInv(d, parse, st);
      StepKeepsComplete(d, parse, st);
      WalkConsumesAllSites(d, parse, next);
    } else if |d.siteMarkers| > 0 {
      assert d.siteMarkers[|d.siteMarkers| - 1] <= st.node;
    }
  }

  /**
   * On a well-formed list every site marker is recognised: a successful parse
   * yields exactly one record per site marker, and one record when there is none.
   */
  lemma WellFormedCount(d: Document, parse: string -> Option<Url>)
    requires WellFormed(d)
    requires Assemble(d, parse).Ok?
    ensures |Assemble(d, parse).value| == Max(1, |d.siteMarkers|)
  {
    var st := Start(d);
    WalkConsumesAllSites(d, parse, st);
    WalkCount(d, parse, st);
  }

  /**
   * One pass of the `for` loop of `main`: move to the next sibling and act on its
   * kind, in the order the if-chain tests them. It computes Step.
   */
  method Visit(d: Document, parse: string -> Option<Url>, st: State) returns (r: Result<State, Failure>)
    requires st.node + 1 < |d.siblings|
    ensures r == Step(d, parse, st)
  {
    var node := st.node + 1;
    var ix := st.ix;
    var s := st.current;
    var sites := st.sites;
    ghost var k := Classify(d, ix, node);
    if 0 <= ix.brk + 1 < |d.breaks| && node == d.breaks[ix.brk + 1] {
      assert k == BreakMarker;
      ix := ix.(brk := ix.brk + 1);
    } else if 0 <= ix.country + 1 < |d.countries| && node == d.countries[ix.country + 1] {
      assert k == CountryMarker;
      ix := ix.(country := ix.country + 1);
    } else if 0 <= ix.site + 1 < |d.siteMarkers| && node == d.siteMarkers[ix.site + 1] {
      assert k == SiteMarker;
      if ix.site != -1 {
        sites := sites + [s];
      }
      ix := ix.(site := ix.site + 1);
      s := EmptySite;
      node := node + 1;
      if node == |d.siblings| || !d.siblings[node].isTT {
        return Err(SiteURLMissing);
      }
      s := s.(hosts := Split(d.siblings[node].text, ','));
    } else if 0 <= ix.packageURL + 1 < |d.packageURLs| && node == d.packageURLs[ix.packageURL + 1] {
      assert k == PackageURLMarker;
      ix := ix.(packageURL := ix.packageURL + 1);
      var protocol := TrimPrefix(d.siblings[node].text, PACKAGES_PREFIX);
      protocol := TrimSuffix(protocol, PACKAGES_SUFFIX);
      node := node + 1;
      if node == |d.siblings| || !d.siblings[node].isTT {
        return Err(PackageURLMissing);
      }
      var url: Option<Url> := None;
      if protocol == "HTTP" {
        var parsed := parse(d.siblings[node].href);
        if parsed.None? {
          return Err(BadPackageURL);
        }
        url := Some(parsed.value.(scheme := "http"));
      } else if protocol == "rsync" {
        if |s.hosts| == 0 {
          return Err(NoOpenSite);
        }
        url := Some(Url("rsync", s.hosts[0], TrimSpace(d.siblings[node].text)));
      }
      if ix.site == -1 {
        return Err(NoOpenSite);
      }
      s := s.(packProtocols := s.packProtocols[protocol := url]);
    } else if 0 <= ix.typ + 1 < |d.types| && node == d.types[ix.typ + 1] {
      assert k == TypeMarker;
      ix := ix.(typ := ix.typ + 1);
      s := s.(siteType := TrimPrefix(TrimSpace(d.siblings[node].text), TYPE_PREFIX));
    } else if 0 <= ix.arch + 1 < |d.archs| && node == d.archs[ix.arch + 1] {
      assert k == ArchMarker;
      ix := ix.(arch := ix.arch + 1);
      var archList := TrimSpace(d.siblings[node].text);
      archList := TrimPrefix(archList, ARCH_PREFIX);
      s := s.(architectures := Split(archList, ' '));
    } else {
      assert k == Plain;
    }
    r := Ok(State(node, ix, s, sites));
  }

  /**
   * The parse loop of `main`: the cursor, the six marker counters, the open record
   * `s` and the `sites` slice are the loop's state. It computes Assemble.
   */
  method ParseMirrorList(d: Document, parse: string -> Option<Url>) returns (r: Result<seq<Site>, Failure>)
    requires WellPlaced(d)
    ensures r == Assemble(d, parse)
    ensures r.Ok? ==> 1 <= |r.value| <= Max(1, |d.siteMarkers|)
  {
    if |d.countries| == 0 {
      return Err(NoCountries);
    }
    if d.countries[0] == 0 {
      return Err(NoPrevSibling);
    }
    var st := Start(d);
    ghost var goal := Walk(d, parse, st);
    while st.node + 1 < |d.siblings|
      invariant st.node < |d.siblings|
      invariant Walk(d, parse, st) == goal
      decreases |d.siblings| - st.node
    {
      var next := Visit(d, parse, st);
      if next.Err? {
        return Err(next.error);
      }
      st := next.value;
    }
    r := Ok(st.sites + [st.current]);
  }

  /**
   * What the records read as after the loop when every entry of `sites` is `&s`,
   * the address of the single loop variable: each entry reads the last record.
   */
  function AliasedView(records: seq<Site>): seq<Site>
    requires |records| >= 1
  {
    seq(|records|, _ => records[|records| - 1])
  }

  /** A list with two mirrors, "a" and "b", under one country heading. */
  const TwoMirrors := Document(
    [Node("", false, ""), Node("Austria", false, ""),
     Node("Site:", false, ""), Node("a", true, ""),
     Node("Site:", false, ""), Node("b", true, "")],
    [], [1], [2, 4], [], [], [])

  /** The two-mirror list is well formed, so it parses to one record per site marker. */
  lemma TwoMirrorsWellFormed()
    ensures WellFormed(TwoMirrors)
  {
    var d := TwoMirrors;
    assert d.countries == [1] && d.siteMarkers == [2, 4] && |d.siblings| == 6;
    assert Unlisted(d, 3) && Unlisted(d, 5);
    assert Apart(d.countries, d.siteMarkers);
  }

  /** The records of the two mirrors, holding nothing but their host. */
  const MirrorA := EmptySite.(hosts := ["a"])
  const MirrorB := EmptySite.(hosts := ["b"])

  /** Splitting a one-character string that is not the separator gives that string back as the only piece. */
  lemma SplitSingle(c: char, sep: char)
    requires c != sep
    ensures Split([c], sep) == [[c]]
  {
    assert [c][1..] == [] && [c][0] == c;
    assert Split([], sep) == [[]];
    assert [c] + [] == [c];
  }

  /** The country heading only moves its counter. */
  lemma TwoMirrorsHeading(parse: string -> Option<Url>)
    ensures Step(TwoMirrors, parse, Start(TwoMirrors)) == Ok(State(1, Unstarted.(country := 0), EmptySite, []))
  {
    assert Classify(TwoMirrors, Unstarted, 1) == CountryMarker;
  }

  /** The first site marker opens the record of "a" and appends nothing. */
  lemma TwoMirrorsFirstSite(parse: string -> Option<Url>)
    ensures Step(TwoMirrors, parse, State(1, Unstarted.(country := 0), EmptySite, []))
      == Ok(State(3, Unstarted.(country := 0, site := 0), MirrorA, []))
  {
    SplitSingle('a', ',');
    assert Classify(TwoMirrors, Unstarted.(country := 0), 2) == SiteMarker;
  }

  /** The second site marker appends the record of "a" and opens the record of "b". */
  lemma TwoMirrorsSecondSite(parse: string -> Option<Url>)
    ensures Step(TwoMirrors, parse, State(3, Unstarted.(country := 0, site := 0), MirrorA, []))
      == Ok(State(5, Unstarted.(country := 0, site := 1), MirrorB, [MirrorA]))
  {
    SplitSingle('b', ',');
    var st := State(3, Unstarted.(country := 0, site := 0), MirrorA, []);
    assert Classify(TwoMirrors, st.ix, 4) == SiteMarker;
    assert st.sites + [st.current] == [MirrorA];
  }

  /**
   * On the two-mirror list the parse yields the records of "a" and then "b", but
   * read through the aliased pointers both entries are "b": the first mirror is lost.
   */
  lemma AliasingLosesFirstMirror(parse: string -> Option<Url>)
    ensures Assemble(TwoMirrors, parse) == Ok([MirrorA, MirrorB])
    ensures AliasedView([MirrorA, MirrorB]) == [MirrorB, MirrorB]
    ensures AliasedView([MirrorA, MirrorB]) != [MirrorA, MirrorB]
  {
    var d := TwoMirrors;
    var s0 := Start(d);
    var s1 := State(1, Unstarted.(country := 0), EmptySite, []);
    var s2 := State(3, s1.ix.(site := 0), MirrorA, []);
    var s3 := State(5, s1.ix.(site := 1), MirrorB, [MirrorA]);
    TwoMirrorsHeading(parse);
    TwoMirrorsFirstSite(parse);
    TwoMirrorsSecondSite(parse);
    assert [MirrorA] + [MirrorB] == [MirrorA, MirrorB];
    assert Walk(d, parse, s3) == Ok(s3.(sites := [MirrorA, MirrorB]));
    assert Walk(d, parse, s2) == Walk(d, parse, s3);
    assert Walk(d, parse, s1) == Walk(d, parse, s2);
    assert Walk(d, parse, s0) == Walk(d, parse, s1);
    assert AliasedView([MirrorA, MirrorB])[0] != MirrorA;
  }
}
