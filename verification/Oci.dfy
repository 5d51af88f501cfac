/** The OCI helper of the MCP server: compartment paths resolved segment by
    segment from the tenancy and memoised per cleaned path, the lifecycle
    filter over paginated instance listings, and the argument checks and
    selections of the subnet and image lookups. Every SDK listing is given
    as data: a child-lookup function for compartments, the pages of an
    instance listing, and the lists of subnets and images. */
module Oci {
  import opened Wrappers
  import opened PyText
  import opened Seqs
  import opened PathUtils

  // ---------------------------------------------------------------------
  // Compartments
  // ---------------------------------------------------------------------

  datatype Compartment = Compartment(id: string, name: string)

  /** A segment that no child of its parent matches. */
  datatype LookupError = CompartmentNotFound(name: string, parent: string)

  /** The stand-alone path cache: a dictionary from path to id. */
  class CompartmentCache {
    var entries: map<string, string>

    constructor ()
      ensures entries == map[]
    {
      entries := map[];
    }

    /** `dict.get`: the stored id, or `None` for a path never set. */
    function Get(path: string): (r: Option<string>)
      reads this
      ensures r.Some? <==> path in entries
      ensures r.Some? ==> r.value == entries[path]
    {
      if path in entries then Some(entries[path]) else None
    }

    /** Stores `ocid` under `path`, replacing any earlier id; a later `Get`
        of the same path returns it and no other path changes. */
    method Set(path: string, ocid: string)
      modifies this
      ensures entries == old(entries)[path := ocid]
      ensures Get(path) == Some(ocid)
      ensures forall p :: p != path ==> Get(p) == old(Get(p))
    {
      entries := entries[path := ocid];
    }
  }

  /** The first child whose name is exactly the segment (case-sensitive). */
  function FindChild(children: seq<Compartment>, name: string): Option<Compartment>
    decreases |children|
  {
    if children == [] then None
    else if children[0].name == name then Some(children[0])
    else FindChild(children[1..], name)
  }

  /** The child found is the first whose name is exactly the segment, and
      there is none only when no child has that name. */
  lemma {:induction false} FindChildIsFirstExactMatch(children: seq<Compartment>, name: string)
    ensures var r := FindChild(children, name);
      (r.None? <==> forall i :: 0 <= i < |children| ==> children[i].name != name) &&
      (r.Some? ==> exists i ::
        0 <= i < |children| && children[i] == r.value && r.value.name == name &&
        forall j :: 0 <= j < i ==> children[j].name != name)
    decreases |children|
  {
    if children != [] && children[0].name != name {
      var rest := children[1..];
      FindChildIsFirstExactMatch(rest, name);
      var r := FindChild(rest, name);
      if r.Some? {
        var i :| 0 <= i < |rest| && rest[i] == r.value && r.value.name == name &&
          forall j :: 0 <= j < i ==> rest[j].name != name;
        assert children[i + 1] == r.value;
        forall j | 0 <= j < i + 1 ensures children[j].name != name {
          if j > 0 { assert children[j] == rest[j - 1]; }
        }
      } else {
        forall i | 0 <= i < |children| ensures children[i].name != name {
          if i > 0 { assert children[i] == rest[i - 1]; }
        }
      }
    }
  }

  /** The id reached by walking `segs` down from `parent`: each segment is
      looked up among the children of the id the previous segment reached. */
  function Resolve(segs: seq<string>, parent: string, list: (string, string) -> seq<Compartment>): Result<string, LookupError>
    decreases |segs|
  {
    if segs == [] then Success(parent)
    else match FindChild(list(parent, segs[0]), segs[0])
      case None => Failure(CompartmentNotFound(segs[0], parent))
      case Some(c) => Resolve(segs[1..], c.id, list)
  }

  /** The `(parent, name)` child lookups that walk issues, in order, up to
      and including the one that fails. */
  function Queries(segs: seq<string>, parent: string, list: (string, string) -> seq<Compartment>): seq<(string, string)>
    decreases |segs|
  {
    if segs == [] then []
    else
      var rest := match FindChild(list(parent, segs[0]), segs[0])
        case None => []
        case Some(c) => Queries(segs[1..], c.id, list);
      [(parent, segs[0])] + rest
  }

  /** The walk asks for the segments in order, the first under `parent`;
      it asks for every segment when it resolves, and stops at the first
      failure otherwise. */
  lemma {:induction false} QueriesShape(segs: seq<string>, parent: string, list: (string, string) -> seq<Compartment>)
    ensures var q := Queries(segs, parent, list);
      |q| <= |segs| &&
      (forall k :: 0 <= k < |q| ==> q[k].1 == segs[k]) &&
      (segs != [] ==> q != [] && q[0] == (parent, segs[0])) &&
      (Resolve(segs, parent, list).Success? ==> |q| == |segs|)
    decreases |segs|
  {
    if segs != [] {
      match FindChild(list(parent, segs[0]), segs[0])
      case None =>
      case Some(c) =>
        QueriesShape(segs[1..], c.id, list);
        var q := Queries(segs, parent, list);
        var rest := Queries(segs[1..], c.id, list);
        assert q == [(parent, segs[0])] + rest;
        forall k | 1 <= k < |q| ensures q[k].1 == segs[k] {
          assert q[k] == rest[k - 1];
        }
    }
  }

  /** Walking `a + b` walks `a` first and continues with `b` from the id `a`
      reached; a failure in `a` is the failure of the whole walk. */
  lemma {:induction false} ResolveAppend(a: seq<string>, b: seq<string>, parent: string, list: (string, string) -> seq<Compartment>)
    ensures Resolve(a + b, parent, list) ==
      match Resolve(a, parent, list)
      case Success(id) => Resolve(b, id, list)
      case Failure(e) => Failure(e)
    decreases |a|
  {
    if a == [] {
      assert a + b == b;
    } else {
      assert (a + b)[0] == a[0] && (a + b)[1..] == a[1..] + b;
      match FindChild(list(parent, a[0]), a[0])
      case None =>
      case Some(c) => ResolveAppend(a[1..], b, c.id, list);
    }
  }

  /** The lookups of `a + b` are those of `a`, then, if `a` resolved, those
      of `b` under the id it reached. */
  lemma {:induction false} QueriesAppend(a: seq<string>, b: seq<string>, parent: string, list: (string, string) -> seq<Compartment>)
    ensures Queries(a + b, parent, list) ==
      Queries(a, parent, list) +
      match Resolve(a, parent, list)
      case Success(id) => Queries(b, id, list)
      case Failure(_) => []
    decreases |a|
  {
    if a == [] {
      assert a + b == b;
    } else {
      assert (a + b)[0] == a[0] && (a + b)[1..] == a[1..] + b;
      match FindChild(list(parent, a[0]), a[0])
      case None =>
      case Some(c) =>
        QueriesAppend(a[1..], b, c.id, list);
        var head := [(parent, a[0])];
        var later := match Resolve(a[1..], c.id, list)
          case Success(id) => Queries(b, id, list)
          case Failure(_) => [];
        assert head + (Queries(a[1..], c.id, list) + later) == (head + Queries(a[1..], c.id, list)) + later;
    }
  }

  /** A failed walk stops at the segment it names: the last lookup issued
      is for that segment under the parent in the error. */
  lemma {:induction false} FailureIsLastQuery(segs: seq<string>, parent: string, list: (string, string) -> seq<Compartment>)
    requires Resolve(segs, parent, list).Failure?
    ensures var q := Queries(segs, parent, list);
      var e := Resolve(segs, parent, list).error;
      e.name in segs && q != [] && q[|q| - 1] == (e.parent, e.name)
    decreases |segs|
  {
    match FindChild(list(parent, segs[0]), segs[0])
    case None =>
    case Some(c) =>
      FailureIsLastQuery(segs[1..], c.id, list);
  }

  /** The walk of all of `segs` stands at `parent` having issued `asked`,
      with `rest` still to go: the rest of the walk from there is the rest
      of the whole walk. */
  ghost predicate WalkedTo(segs: seq<string>, tenancy: string, list: (string, string) -> seq<Compartment>,
                           rest: seq<string>, parent: string, asked: seq<(string, string)>)
  {
    Resolve(segs, tenancy, list) == Resolve(rest, parent, list) &&
    Queries(segs, tenancy, list) == asked + Queries(rest, parent, list)
  }

  /** Looking the next segment up either ends the walk with its failure or
      moves it one segment further, to the child found. */
  lemma WalkAdvance(segs: seq<string>, tenancy: string, list: (string, string) -> seq<Compartment>,
                    rest: seq<string>, parent: string, asked: seq<(string, string)>)
    requires rest != [] && WalkedTo(segs, tenancy, list, rest, parent, asked)
    ensures var found := FindChild(list(parent, rest[0]), rest[0]);
      var next := asked + [(parent, rest[0])];
      (found.None? ==> Resolve(segs, tenancy, list) == Failure(CompartmentNotFound(rest[0], parent)) &&
                       Queries(segs, tenancy, list) == next) &&
      (found.Some? ==> WalkedTo(segs, tenancy, list, rest[1..], found.value.id, next))
  {
    var found := FindChild(list(parent, rest[0]), rest[0]);
    if found.Some? {
      var later := Queries(rest[1..], found.value.id, list);
      assert asked + ([(parent, rest[0])] + later) == (asked + [(parent, rest[0])]) + later;
    }
  }

  /** The segment walk of a cache miss: from the tenancy, each segment is
      looked up under the id the previous one reached; the first segment
      with no matching child stops the walk. `asked` lists the lookups made. */
  method WalkSegments(segs: seq<string>, tenancy: string, list: (string, string) -> seq<Compartment>)
    returns (r: Result<string, LookupError>, asked: seq<(string, string)>)
    ensures r == Resolve(segs, tenancy, list)
    ensures asked == Queries(segs, tenancy, list)
  {
    var parent := tenancy;
    asked := [];
    var rest := segs;
    assert asked + Queries(rest, parent, list) == Queries(segs, tenancy, list);
    while rest != []
      invariant WalkedTo(segs, tenancy, list, rest, parent, asked)
      decreases |rest|
    {
      var name := rest[0];
      var children := list(parent, name);
      var found := FindChild(children, name);
      WalkAdvance(segs, tenancy, list, rest, parent, asked);
      asked := asked + [(parent, name)];
      if found.None? {
        return Failure(CompartmentNotFound(name, parent)), asked;
      }
      parent := found.value.id;
      rest := rest[1..];
    }
    assert asked + [] == asked;
    r := Success(parent);
  }

  /** A cache entry counts only when its id is truthy (non-empty). */
  predicate CacheHit(cache: map<string, string>, path: string) {
    path in cache && cache[path] != ""
  }

  /** What one compartment lookup returns, the cache it leaves and the
      child lookups it issues. */
  datatype Outcome = Outcome(result: Result<string, LookupError>, cache: map<string, string>, asked: seq<(string, string)>)

  /** One compartment lookup of a cleaned path. The empty path is the
      tenancy; a truthy cache entry for the path is returned without any
      lookup; otherwise the segments are walked from the tenancy and, on
      success only, the full path is cached. */
  function CompartmentLookup(path: string, cache: map<string, string>, tenancy: string,
                             list: (string, string) -> seq<Compartment>): Outcome
  {
    if path == "" then Outcome(Success(tenancy), cache, [])
    else if CacheHit(cache, path) then Outcome(Success(cache[path]), cache, [])
    else
      var segs := Split(path, '/');
      var r := Resolve(segs, tenancy, list);
      Outcome(r, if r.Success? then cache[path := r.value] else cache, Queries(segs, tenancy, list))
  }

  class OciHelper {
    const tenancyOcid: string
    /** `list_compartments(compartment_id=parent, name=name)`: the children
        of `parent` the service returns for `name`. */
    const listCompartments: (string, string) -> seq<Compartment>
    var compartmentCache: map<string, string>
    /** The `(parent, name)` lookups sent to the identity service so far. */
    var compartmentQueries: seq<(string, string)>

    constructor (tenancyOcid: string, listCompartments: (string, string) -> seq<Compartment>)
      ensures this.tenancyOcid == tenancyOcid && this.listCompartments == listCompartments
      ensures compartmentCache == map[] && compartmentQueries == []
    {
      this.tenancyOcid := tenancyOcid;
      this.listCompartments := listCompartments;
      compartmentCache := map[];
      compartmentQueries := [];
    }

    /** The id of a compartment named by a path, with the cache and the
        lookups as `CompartmentLookup` of the cleaned path describes them. */
    method GetCompartmentOcid(compName: string) returns (r: Result<string, LookupError>)
      modifies this
      ensures var o := CompartmentLookup(CleanPath(compName), old(compartmentCache), tenancyOcid, listCompartments);
        r == o.result && compartmentCache == o.cache && compartmentQueries == old(compartmentQueries) + o.asked
    {
      r := LookupCleanPath(CleanPath(compName));
    }

    /** The lookup of an already cleaned path: the tenancy for the empty
        path, the cached id on a truthy hit, otherwise the segment walk,
        whose id alone is cached and only when it succeeds. */
    method LookupCleanPath(cleaned: string) returns (r: Result<string, LookupError>)
      modifies this
      ensures var o := CompartmentLookup(cleaned, old(compartmentCache), tenancyOcid, listCompartments);
        r == o.result && compartmentCache == o.cache && compartmentQueries == old(compartmentQueries) + o.asked
    {
      if cleaned == "" {
        return Success(tenancyOcid);
      }
      if cleaned in compartmentCache && compartmentCache[cleaned] != "" {
        return Success(compartmentCache[cleaned]);
      }
      var asked;
      r, asked := WalkSegments(Split(cleaned, '/'), tenancyOcid, listCompartments);
      compartmentQueries := compartmentQueries + asked;
      if r.Success? {
        compartmentCache := compartmentCache[cleaned := r.value];
      }
    }
  }

  /** Blank input, or input made only of slashes, is the tenancy itself;
      the cache is neither read nor written and nothing is looked up. */
  lemma BlankPathIsTenancy(compName: string, cache: map<string, string>, tenancy: string,
                           list: (string, string) -> seq<Compartment>)
    requires (forall i :: 0 <= i < |compName| ==> IsSpace(compName[i])) ||
             (forall i :: 0 <= i < |compName| ==> compName[i] == '/')
    ensures CompartmentLookup(CleanPath(compName), cache, tenancy, list) == Outcome(Success(tenancy), cache, [])
  {
    BlankOrSlashesIsTenancy(compName);
  }

  /** On a miss the lookups name the path's segments in order, the first
      under the tenancy; for a cleaned path (whose segments are never empty,
      see `CleanPathHasNoEmptySegment`) no looked-up name is empty. */
  lemma MissAsksForEachSegment(path: string, cache: map<string, string>, tenancy: string,
                               list: (string, string) -> seq<Compartment>)
    requires path != "" && !CacheHit(cache, path)
    requires forall k :: 0 <= k < |Split(path, '/')| ==> Split(path, '/')[k] != ""
    ensures var q := CompartmentLookup(path, cache, tenancy, list).asked;
      q != [] && q[0].0 == tenancy && |q| <= |Split(path, '/')| &&
      forall k :: 0 <= k < |q| ==> q[k].1 == Split(path, '/')[k] && q[k].1 != "" && '/' !in q[k].1
  {
    QueriesShape(Split(path, '/'), tenancy, list);
  }

  /** A cache hit returns the cached id and asks nothing. */
  lemma HitAsksNothing(path: string, cache: map<string, string>, tenancy: string,
                       list: (string, string) -> seq<Compartment>)
    requires path != "" && path in cache && cache[path] != ""
    ensures CompartmentLookup(path, cache, tenancy, list) == Outcome(Success(cache[path]), cache, [])
  {
  }

  /** A failed walk leaves the cache as it was; its error names a segment of
      the path, and the last lookup is the one that found no child. */
  lemma FailureLeavesCache(path: string, cache: map<string, string>, tenancy: string,
                           list: (string, string) -> seq<Compartment>)
    requires CompartmentLookup(path, cache, tenancy, list).result.Failure?
    ensures var o := CompartmentLookup(path, cache, tenancy, list);
      o.cache == cache && o.result.error.name in Split(path, '/') &&
      o.asked != [] && o.asked[|o.asked| - 1] == (o.result.error.parent, o.result.error.name)
  {
    FailureIsLastQuery(Split(path, '/'), tenancy, list);
  }

  /** A walk that succeeds caches the full path and nothing else, and has
      looked up every segment. */
  lemma WalkCachesOnlyFullPath(path: string, cache: map<string, string>, tenancy: string,
                               list: (string, string) -> seq<Compartment>)
    requires path != "" && !CacheHit(cache, path)
    requires CompartmentLookup(path, cache, tenancy, list).result.Success?
    ensures var o := CompartmentLookup(path, cache, tenancy, list);
      o.cache == cache[path := o.result.value] &&
      (forall p :: p != path ==> (p in o.cache <==> p in cache)) &&
      |o.asked| == |Split(path, '/')|
  {
    QueriesShape(Split(path, '/'), tenancy, list);
  }

  /** Once a lookup has succeeded with a truthy id, looking the same path up
      again returns that id without a single child lookup. */
  lemma SecondLookupHitsCache(path: string, cache: map<string, string>, tenancy: string,
                              list: (string, string) -> seq<Compartment>)
    requires path != ""
    requires CompartmentLookup(path, cache, tenancy, list).result.Success?
    requires CompartmentLookup(path, cache, tenancy, list).result.value != ""
    ensures var first := CompartmentLookup(path, cache, tenancy, list);
      var second := CompartmentLookup(path, first.cache, tenancy, list);
      second.result == first.result && second.cache == first.cache && second.asked == []
  {
  }

  /** Spelling a path with or without a leading `root/` gives the same cache
      key, so both spellings share one entry and one outcome. */
  lemma RootSpellingSharesEntry(path: string, cache: map<string, string>, tenancy: string,
                                list: (string, string) -> seq<Compartment>)
    requires path != [] && !IsSpace(path[0]) && !IsSpace(path[|path| - 1])
    requires Segments(path) == [] || !IsRoot(Segments(path)[0])
    ensures CompartmentLookup(CleanPath("root/" + path), cache, tenancy, list) ==
      CompartmentLookup(CleanPath(path), cache, tenancy, list)
  {
    RootPrefixIsRedundant(path);
  }

  // ---------------------------------------------------------------------
  // Instances
  // ---------------------------------------------------------------------

  datatype Instance = Instance(
    id: string,
    displayName: string,
    lifecycleState: string,
    shape: string,
    availabilityDomain: string,
    compartmentId: string,
    metadata: Option<map<string, string>>)

  /** The lifecycle states that count as active; TERMINATED is not one. */
  const ValidStates: set<string> := {"PROVISIONING", "STARTING", "RUNNING", "STOPPING", "STOPPED"}

  /** Whether the state filter lets an instance through. */
  predicate Listed(onlyActive: bool, inst: Instance) {
    !onlyActive || inst.lifecycleState in ValidStates
  }

  function ListedFor(onlyActive: bool): Instance -> bool {
    inst => Listed(onlyActive, inst)
  }

  /** Whether an instance answers a by-name query: the display names agree
      ignoring case, and the state filter lets it through. */
  predicate Matches(displayName: string, onlyActive: bool, inst: Instance) {
    Lower(inst.displayName) == Lower(displayName) && Listed(onlyActive, inst)
  }

  function MatchesFor(displayName: string, onlyActive: bool): Instance -> bool {
    inst => Matches(displayName, onlyActive, inst)
  }

  /** Every instance of every page, in page order, keeping only listed ones
      when `onlyActive` is set. */
  method GetListOfInstances(pages: seq<seq<Instance>>, onlyActive: bool) returns (instances: seq<Instance>)
    ensures instances == Filter(Flatten(pages), ListedFor(onlyActive))
  {
    instances := [];
    var p := 0;
    while p < |pages|
      invariant 0 <= p <= |pages|
      invariant instances == Filter(Flatten(pages[..p]), ListedFor(onlyActive))
    {
      instances := AddListed(instances, pages[p], onlyActive);
      FlattenStep(pages, p);
      FilterAppend(Flatten(pages[..p]), pages[p], ListedFor(onlyActive));
      p := p + 1;
    }
    assert pages[..p] == pages;
  }

  /** One page of the listing: its instances that pass the state filter,
      in order, after those collected so far. */
  method AddListed(collected: seq<Instance>, page: seq<Instance>, onlyActive: bool) returns (instances: seq<Instance>)
    ensures instances == collected + Filter(page, ListedFor(onlyActive))
  {
    instances := collected;
    var j := 0;
    while j < |page|
      invariant 0 <= j <= |page|
      invariant instances == collected + Filter(page[..j], ListedFor(onlyActive))
    {
      FilterScanStep(collected, page, j, ListedFor(onlyActive));
      if Listed(onlyActive, page[j]) {
        instances := instances + [page[j]];
      }
      j := j + 1;
    }
    assert page[..j] == page;
  }

  /** With `onlyActive` every instance listed is in one of the valid
      lifecycle states, so never terminated. */
  lemma ActiveListingIsValid(pages: seq<seq<Instance>>)
    ensures var listed := Filter(Flatten(pages), ListedFor(true));
      forall i :: 0 <= i < |listed| ==>
        listed[i].lifecycleState in ValidStates && listed[i].lifecycleState != "TERMINATED"
  {
  }

  /** Without `onlyActive` every instance of every page is listed, in order. */
  lemma FullListingIsEverything(pages: seq<seq<Instance>>)
    ensures Filter(Flatten(pages), ListedFor(false)) == Flatten(pages)
  {
    FilterAllPass(Flatten(pages), ListedFor(false));
  }

  /** The first instance, across pages, whose display name matches ignoring
      case and whose state passes the filter; `None` when there is none. */
  method GetInstanceByName(pages: seq<seq<Instance>>, displayName: string, onlyActive: bool) returns (r: Option<Instance>)
    ensures r == FirstWhere(Flatten(pages), MatchesFor(displayName, onlyActive))
    ensures r.Some? ==> Lower(r.value.displayName) == Lower(displayName) && Listed(onlyActive, r.value)
    ensures r.None? <==> forall i :: 0 <= i < |Flatten(pages)| ==> !Matches(displayName, onlyActive, Flatten(pages)[i])
  {
    var m := MatchesFor(displayName, onlyActive);
    var p := 0;
    while p < |pages|
      invariant 0 <= p <= |pages|
      invariant FirstWhere(Flatten(pages[..p]), m) == None
    {
      var page := pages[p];
      ghost var done := Flatten(pages[..p]);
      assert done + page[..0] == done;
      var j := 0;
      while j < |page|
        invariant 0 <= j <= |page|
        invariant FirstWhere(done + page[..j], m) == None
      {
        if Matches(displayName, onlyActive, page[j]) {
          FoundOnPage(pages, p, j, m);
          return Some(page[j]);
        }
        FirstWhereNoneStep(done, page, j, m);
        j := j + 1;
      }
      assert page[..j] == page;
      FlattenStep(pages, p);
      p := p + 1;
    }
    assert pages[..p] == pages;
    return None;
  }

  /** An entry that passes the test, with nothing before it across the
      pages that does, is the first match of the whole listing. */
  lemma FoundOnPage<T>(pages: seq<seq<T>>, p: nat, j: nat, m: T -> bool)
    requires p < |pages| && j < |pages[p]| && m(pages[p][j])
    requires FirstWhere(Flatten(pages[..p]) + pages[p][..j], m) == None
    ensures FirstWhere(Flatten(pages), m) == Some(pages[p][j])
  {
    var seen := Flatten(pages[..p]) + pages[p][..j];
    var rest := pages[p][j..] + Flatten(pages[p + 1..]);
    FlattenAround(pages, p, j);
    FirstWhereAppend(seen, rest, m);
    assert rest[0] == pages[p][j];
  }

  /** The by-name match is the head of the list of all matches. */
  lemma ByNameIsFirstOfMatches(pages: seq<seq<Instance>>, displayName: string, onlyActive: bool)
    ensures var all := Filter(Flatten(pages), MatchesFor(displayName, onlyActive));
      FirstWhere(Flatten(pages), MatchesFor(displayName, onlyActive)) == if all == [] then None else Some(all[0])
  {
    FirstWhereIsHeadOfFilter(Flatten(pages), MatchesFor(displayName, onlyActive));
  }

  /** An instance found by name also appears in the full listing under the
      same state filter. */
  lemma ByNameIsListed(pages: seq<seq<Instance>>, displayName: string, onlyActive: bool)
    requires FirstWhere(Flatten(pages), MatchesFor(displayName, onlyActive)).Some?
    ensures FirstWhere(Flatten(pages), MatchesFor(displayName, onlyActive)).value in
      Filter(Flatten(pages), ListedFor(onlyActive))
  {
    var s := Flatten(pages);
    var found := FirstWhere(s, MatchesFor(displayName, onlyActive)).value;
    var i :| 0 <= i < |s| && s[i] == found && MatchesFor(displayName, onlyActive)(s[i]);
    FilterKeeps(s, ListedFor(onlyActive), i);
  }

  // ---------------------------------------------------------------------
  // Subnets and images
  // ---------------------------------------------------------------------

  /** The helpers' errors: an empty argument is a `ValueError`, an empty
      listing or an empty selection a `RuntimeError`. */
  datatype HelperError =
    | EmptyArgument(argument: string)
    | SubnetNotFound(subnetName: string, compartment: string)
    | NoSubnets(compartment: string)
    | NoMatchingImages(prefix: string, compartment: string)

  predicate IsValueError(e: HelperError) { e.EmptyArgument? }

  datatype Subnet = Subnet(
    id: string,
    displayName: string,
    cidrBlock: Option<string>,
    lifecycleState: Option<string>,
    vcnId: Option<string>)

  /** The record returned for a subnet. */
  datatype SubnetSummary = SubnetSummary(
    id: string,
    name: string,
    cidr: Option<string>,
    lifecycleState: Option<string>,
    vcnId: Option<string>)

  function Summarize(s: Subnet): SubnetSummary {
    SubnetSummary(s.id, s.displayName, s.cidrBlock, s.lifecycleState, s.vcnId)
  }

  /** The id of a subnet found by display name. `subnets` is the listing the
      service returns for that name; its first entry is taken as is. */
  function GetSubnetByName(compartmentOcid: string, subnetName: string, subnets: seq<Subnet>): (r: Result<string, HelperError>)
    ensures r.Success? <==> compartmentOcid != "" && subnetName != "" && subnets != []
    ensures r.Success? ==> r.value == subnets[0].id
    ensures r.Failure? ==> (IsValueError(r.error) <==> compartmentOcid == "" || subnetName == "")
    ensures r.Failure? && compartmentOcid == "" ==> r.error == EmptyArgument("compartment_ocid")
    ensures r.Failure? && compartmentOcid != "" && subnetName == "" ==> r.error == EmptyArgument("subnet_name")
    ensures r.Failure? && !IsValueError(r.error) ==> r.error == SubnetNotFound(subnetName, compartmentOcid)
  {
    if compartmentOcid == "" then Failure(EmptyArgument("compartment_ocid"))
    else if subnetName == "" then Failure(EmptyArgument("subnet_name"))
    else if subnets == [] then Failure(SubnetNotFound(subnetName, compartmentOcid))
    else Success(subnets[0].id)
  }

  /** One summary per listed subnet, in listing order. */
  function GetAvailableSubnets(compartmentOcid: string, subnets: seq<Subnet>): (r: Result<seq<SubnetSummary>, HelperError>)
    ensures r.Success? <==> compartmentOcid != "" && subnets != []
    ensures r.Success? ==> (|r.value| == |subnets| &&
      forall i :: 0 <= i < |subnets| ==> r.value[i].id == subnets[i].id && r.value[i].name == subnets[i].displayName)
    ensures r.Failure? ==> (IsValueError(r.error) <==> compartmentOcid == "")
    ensures r.Failure? && compartmentOcid == "" ==> r.error == EmptyArgument("compartment_ocid")
    ensures r.Failure? && !IsValueError(r.error) ==> r.error == NoSubnets(compartmentOcid)
  {
    if compartmentOcid == "" then Failure(EmptyArgument("compartment_ocid"))
    else if subnets == [] then Failure(NoSubnets(compartmentOcid))
    else Success(seq(|subnets|, i requires 0 <= i < |subnets| => Summarize(subnets[i])))
  }

  datatype Image = Image(id: string, displayName: Option<string>, timeCreated: string, lifecycleState: string)

  /** The record returned for an image. */
  datatype ImageSummary = ImageSummary(id: string, name: string, timeCreated: string, lifecycleState: string)

  /** An image whose non-empty display name starts with the prefix, both in
      lower case. */
  predicate HasPrefix(prefix: string, img: Image) {
    img.displayName.Some? && img.displayName.value != "" &&
    StartsWith(Lower(img.displayName.value), Lower(prefix))
  }

  function HasPrefixFor(prefix: string): Image -> bool {
    img => HasPrefix(prefix, img)
  }

  function Describe(img: Image): ImageSummary {
    ImageSummary(img.id, img.displayName.GetOr(""), img.timeCreated, img.lifecycleState)
  }

  /** Every image of the list described, in order: id, name, creation time
      and state. */
  function DescribeAll(images: seq<Image>): (r: seq<ImageSummary>)
    ensures |r| == |images|
    ensures forall i :: 0 <= i < |images| ==>
      && r[i].id == images[i].id
      && (images[i].displayName.Some? ==> r[i].name == images[i].displayName.value)
      && r[i].timeCreated == images[i].timeCreated
      && r[i].lifecycleState == images[i].lifecycleState
  {
    seq(|images|, i requires 0 <= i < |images| => Describe(images[i]))
  }

  /** The latest image with the prefix: the first match in `images`, the
      listing's first page, which the service sorts newest first. */
  function GetLatestImageByPrefix(compartmentOcid: string, prefix: string, images: seq<Image>): (r: Result<ImageSummary, HelperError>)
    ensures r.Success? <==> (compartmentOcid != "" && prefix != "" &&
      exists i :: 0 <= i < |images| && HasPrefix(prefix, images[i]))
    ensures r.Success? ==> exists i ::
      0 <= i < |images| && HasPrefix(prefix, images[i]) &&
      r.value == Describe(images[i]) && forall j :: 0 <= j < i ==> !HasPrefix(prefix, images[j])
    ensures r.Failure? ==> (IsValueError(r.error) <==> compartmentOcid == "" || prefix == "")
    ensures r.Failure? && compartmentOcid == "" ==> r.error == EmptyArgument("compartment_ocid")
    ensures r.Failure? && compartmentOcid != "" && prefix == "" ==> r.error == EmptyArgument("image_name_prefix")
    ensures r.Failure? && !IsValueError(r.error) ==> r.error == NoMatchingImages(prefix, compartmentOcid)
  {
    if compartmentOcid == "" then Failure(EmptyArgument("compartment_ocid"))
    else if prefix == "" then Failure(EmptyArgument("image_name_prefix"))
    else
      var matching := Filter(images, HasPrefixFor(prefix));
      FirstWhereIsHeadOfFilter(images, HasPrefixFor(prefix));
      if matching == [] then Failure(NoMatchingImages(prefix, compartmentOcid))
      else Success(Describe(matching[0]))
  }

  /** Every image with the prefix, across all pages, in listing order. */
  function GetImagesByPrefix(compartmentOcid: string, prefix: string, allImages: seq<Image>): (r: Result<seq<ImageSummary>, HelperError>)
    ensures r.Success? <==> (compartmentOcid != "" && prefix != "" &&
      exists i :: 0 <= i < |allImages| && HasPrefix(prefix, allImages[i]))
    ensures r.Success? ==> r.value == DescribeAll(Filter(allImages, HasPrefixFor(prefix)))
    ensures r.Failure? ==> (IsValueError(r.error) <==> compartmentOcid == "" || prefix == "")
    ensures r.Failure? && compartmentOcid == "" ==> r.error == EmptyArgument("compartment_ocid")
    ensures r.Failure? && compartmentOcid != "" && prefix == "" ==> r.error == EmptyArgument("image_name_prefix")
    ensures r.Failure? && !IsValueError(r.error) ==> r.error == NoMatchingImages(prefix, compartmentOcid)
  {
    if compartmentOcid == "" then Failure(EmptyArgument("compartment_ocid"))
    else if prefix == "" then Failure(EmptyArgument("image_name_prefix"))
    else
      var matching := Filter(allImages, HasPrefixFor(prefix));
      FirstWhereIsHeadOfFilter(allImages, HasPrefixFor(prefix));
      if matching == [] then Failure(NoMatchingImages(prefix, compartmentOcid))
      else Success(DescribeAll(matching))
  }

  /** Every image with the prefix is described, and nothing else: the
      result is the matches in order. */
  lemma ImagesByPrefixAreTheMatches(compartmentOcid: string, prefix: string, allImages: seq<Image>, i: nat)
    requires compartmentOcid != "" && prefix != ""
    requires i < |allImages| && HasPrefix(prefix, allImages[i])
    ensures GetImagesByPrefix(compartmentOcid, prefix, allImages).Success?
    ensures Describe(allImages[i]) in GetImagesByPrefix(compartmentOcid, prefix, allImages).value
  {
    var matching := Filter(allImages, HasPrefixFor(prefix));
    FilterKeeps(allImages, HasPrefixFor(prefix), i);
    var k :| 0 <= k < |matching| && matching[k] == allImages[i];
    assert DescribeAll(matching)[k] == Describe(allImages[i]);
  }

  /** When the first page holds a match, the latest image is the first of
      all images with the prefix over every page. */
  lemma LatestIsFirstOfAll(compartmentOcid: string, prefix: string, firstPage: seq<Image>, rest: seq<Image>)
    requires GetLatestImageByPrefix(compartmentOcid, prefix, firstPage).Success?
    ensures GetImagesByPrefix(compartmentOcid, prefix, firstPage + rest).Success?
    ensures GetImagesByPrefix(compartmentOcid, prefix, firstPage + rest).value[0] ==
      GetLatestImageByPrefix(compartmentOcid, prefix, firstPage).value
  {
    var m := HasPrefixFor(prefix);
    FilterAppend(firstPage, rest, m);
    var i :| 0 <= i < |firstPage| && HasPrefix(prefix, firstPage[i]);
    FilterKeeps(firstPage, m, i);
    assert (firstPage + rest)[i] == firstPage[i];
  }

  /** The latest-image lookup reads only the first page: when no image on it
      has the prefix it fails, although a later page has one. */
  lemma LatestMissesLaterPages(compartmentOcid: string, prefix: string, firstPage: seq<Image>, rest: seq<Image>, i: nat)
    requires compartmentOcid != "" && prefix != ""
    requires forall k :: 0 <= k < |firstPage| ==> !HasPrefix(prefix, firstPage[k])
    requires i < |rest| && HasPrefix(prefix, rest[i])
    ensures GetLatestImageByPrefix(compartmentOcid, prefix, firstPage) == Failure(NoMatchingImages(prefix, compartmentOcid))
    ensures GetImagesByPrefix(compartmentOcid, prefix, firstPage + rest).Success?
  {
    assert (firstPage + rest)[|firstPage| + i] == rest[i];
  }

  /** The latest image over every page: the first image with the prefix
      across the whole listing. */
  function GetLatestImageOverAllPages(compartmentOcid: string, prefix: string, allImages: seq<Image>): (r: Result<ImageSummary, HelperError>)
    ensures r.Success? <==> (compartmentOcid != "" && prefix != "" &&
      exists i :: 0 <= i < |allImages| && HasPrefix(prefix, allImages[i]))
    ensures r.Success? ==> exists i ::
      0 <= i < |allImages| && HasPrefix(prefix, allImages[i]) &&
      r.value == Describe(allImages[i]) && forall j :: 0 <= j < i ==> !HasPrefix(prefix, allImages[j])
    ensures r.Failure? ==> (IsValueError(r.error) <==> compartmentOcid == "" || prefix == "")
    ensures r.Failure? && compartmentOcid == "" ==> r.error == EmptyArgument("compartment_ocid")
    ensures r.Failure? && compartmentOcid != "" && prefix == "" ==> r.error == EmptyArgument("image_name_prefix")
    ensures r.Failure? && !IsValueError(r.error) ==> r.error == NoMatchingImages(prefix, compartmentOcid)
  {
    match GetImagesByPrefix(compartmentOcid, prefix, allImages)
    case Failure(e) => Failure(e)
    case Success(all) =>
      FirstWhereIsHeadOfFilter(allImages, HasPrefixFor(prefix));
      Success(all[0])
  }

  /** Where the first page has a match, reading every page changes nothing:
      the corrected lookup returns what the first-page lookup returns. */
  lemma OverAllPagesAgreesOnFirstPage(compartmentOcid: string, prefix: string, firstPage: seq<Image>, rest: seq<Image>)
    requires GetLatestImageByPrefix(compartmentOcid, prefix, firstPage).Success?
    ensures GetLatestImageOverAllPages(compartmentOcid, prefix, firstPage + rest) ==
      GetLatestImageByPrefix(compartmentOcid, prefix, firstPage)
  {
    LatestIsFirstOfAll(compartmentOcid, prefix, firstPage, rest);
  }
}
