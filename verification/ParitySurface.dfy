/**
The fleet parity layer over an organization's own handler: what the merged tool list contains, and
whether the name of every listed tool is routed to the handler that contributed it.
*/
module ParitySurface {
  import opened Wrappers
  import opened Ordering

  datatype Handler = Primary | Parity

  /** A descriptor, and the handler it comes from. */
  datatype Tool = Tool(name: string, descriptor: string, contributor: Handler)

  datatype ListToolsResult = ListToolsResult(tools: seq<Tool>, nextCursor: Option<string>, meta: Option<string>)

  function ParityToolNames(): seq<string> {
    ["aws_posture", "cloudflare_posture", "environment_policy", "gcp_posture", "github_posture",
     "k8s_posture", "nats_posture", "neon_posture", "org_identity", "organization_posture",
     "security_baseline", "shared_auth_policy", "supabase_posture", "telemetry_status", "zed_dependency_graph"]
  }

  // ----- binary search over a sorted constant

  function BinarySearch(names: seq<string>, x: string, low: nat, high: nat): bool
    requires low <= high <= |names|
    decreases high - low
  {
    if low == high then false
    else
      var mid := (low + high) / 2;
      if names[mid] == x then true
      else if StrLe(names[mid], x) then BinarySearch(names, x, mid + 1, high)
      else BinarySearch(names, x, low, mid)
  }

  predicate ParityTool(name: string) {
    BinarySearch(ParityToolNames(), name, 0, |ParityToolNames()|)
  }

  ghost predicate Within(names: seq<string>, x: string, low: nat, high: nat) {
    exists i :: low <= i < high <= |names| && names[i] == x
  }

  lemma {:induction false} BinarySearchFinds(names: seq<string>, x: string, low: nat, high: nat)
    requires Ascending(names) && low <= high <= |names|
    ensures BinarySearch(names, x, low, high) <==> Within(names, x, low, high)
    decreases high - low
  {
    if low < high {
      var mid := (low + high) / 2;
      if names[mid] == x {
        assert Within(names, x, low, high);
      } else if StrLe(names[mid], x) {
        BinarySearchFinds(names, x, mid + 1, high);
        forall i | low <= i < mid ensures names[i] != x {
          if names[i] == x { StrLeAntisymmetric(names[i], names[mid]); }
        }
        assert Within(names, x, low, high) <==> Within(names, x, mid + 1, high);
      } else {
        BinarySearchFinds(names, x, low, mid);
        assert Within(names, x, low, high) <==> Within(names, x, low, mid);
      }
    }
  }

  predicate Adjacent(a: string, b: string) {
    StrLe(a, b) && a != b
  }

  lemma {:induction false} AdjacentAscending(names: seq<string>)
    requires forall i :: 0 <= i < |names| - 1 ==> Adjacent(names[i], names[i + 1])
    ensures Ascending(names)
  {
    forall i, j | 0 <= i < j < |names| ensures StrLe(names[i], names[j]) && names[i] != names[j] {
      AscendingPair(names, i, j);
    }
  }

  lemma {:induction false} AscendingPair(names: seq<string>, i: nat, j: nat)
    requires forall k :: 0 <= k < |names| - 1 ==> Adjacent(names[k], names[k + 1])
    requires i < j < |names|
    ensures StrLe(names[i], names[j]) && names[i] != names[j]
    decreases j - i
  {
    assert Adjacent(names[i], names[i + 1]);
    if i + 1 < j {
      AscendingPair(names, i + 1, j);
      StrLeTransitive(names[i], names[i + 1], names[j]);
      if names[i] == names[j] {
        StrLeAntisymmetric(names[i], names[i + 1]);
      }
    }
  }

  /** Names that differ for the first time at position `k`. */
  lemma {:induction false} DiffersAt(a: string, b: string, k: nat)
    requires k < |a| && k < |b| && a[k] < b[k]
    requires forall i :: 0 <= i < k ==> a[i] == b[i]
    ensures Adjacent(a, b)
    decreases k
  {
    if k > 0 {
      DiffersAt(a[1..], b[1..], k - 1);
    }
  }

  lemma NeighboursAscend(names: seq<string>)
    requires names == ParityToolNames()
    ensures forall i :: 0 <= i < |names| - 1 ==> Adjacent(names[i], names[i + 1])
  {
    forall i | 0 <= i < |names| - 1 ensures Adjacent(names[i], names[i + 1]) {
      DiffersAt(names[i], names[i + 1], if i in {3, 6, 10, 11} then 1 else if i == 8 then 3 else 0);
    }
  }

  lemma ParityNamesAscend()
    ensures Ascending(ParityToolNames())
  {
    NeighboursAscend(ParityToolNames());
    AdjacentAscending(ParityToolNames());
  }

  lemma ParityToolIsMembership(name: string)
    ensures ParityTool(name) <==> name in ParityToolNames()
  {
    ParityNamesAscend();
    BinarySearchFinds(ParityToolNames(), name, 0, |ParityToolNames()|);
  }

  // ----- merging

  predicate ByName(a: Tool, b: Tool) {
    StrLe(a.name, b.name)
  }

  lemma ByNameIsPreorder()
    ensures TotalPreorder(ByName)
  {
    forall a: Tool, b: Tool ensures ByName(a, b) || ByName(b, a) {
      StrLeTotal(a.name, b.name);
    }
    forall a, b, c | ByName(a, b) && ByName(b, c) ensures ByName(a, c) {
      StrLeTransitive(a.name, b.name, c.name);
    }
  }

  function Names(tools: seq<Tool>): set<string> {
    set t | t in tools :: t.name
  }

  /** The tools whose names are new, each name once. */
  function NewTools(tools: seq<Tool>, names: set<string>): seq<Tool> {
    if tools == [] then []
    else if tools[0].name in names then NewTools(tools[1..], names)
    else [tools[0]] + NewTools(tools[1..], names + {tools[0].name})
  }

  function Or<T>(a: Option<T>, b: Option<T>): Option<T> {
    if a.Some? then a else b
  }

  function Merged(primary: ListToolsResult, parity: ListToolsResult): ListToolsResult {
    ListToolsResult(Sort(primary.tools + NewTools(parity.tools, Names(primary.tools)), ByName),
                    Or(primary.nextCursor, parity.nextCursor), Or(primary.meta, parity.meta))
  }

  /** The page keeps the primary handler's cursor and metadata, and takes the shared handler's where the
      primary one has none. */
  lemma MergedPage(primary: ListToolsResult, parity: ListToolsResult)
    ensures var page := Merged(primary, parity);
            && (primary.nextCursor.Some? ==> page.nextCursor == primary.nextCursor)
            && (primary.nextCursor.None? ==> page.nextCursor == parity.nextCursor)
            && (primary.meta.Some? ==> page.meta == primary.meta)
            && (primary.meta.None? ==> page.meta == parity.meta)
  {
  }

  method MergeTools(primary: ListToolsResult, parity: ListToolsResult) returns (r: ListToolsResult)
    ensures r == Merged(primary, parity)
  {
    var names := Names(primary.tools);
    var tools := primary.tools;
    for i := 0 to |parity.tools|
      invariant tools + NewTools(parity.tools[i..], names) ==
                primary.tools + NewTools(parity.tools, Names(primary.tools))
    {
      var tool := parity.tools[i];
      assert parity.tools[i..][1..] == parity.tools[i + 1..];
      if tool.name !in names {
        assert tools + ([tool] + NewTools(parity.tools[i + 1..], names + {tool.name}))
            == (tools + [tool]) + NewTools(parity.tools[i + 1..], names + {tool.name});
        names := names + {tool.name};
        tools := tools + [tool];
      }
    }
    assert tools + NewTools(parity.tools[|parity.tools|..], names) == tools;
    r := ListToolsResult(Sort(tools, ByName), Or(primary.nextCursor, parity.nextCursor), Or(primary.meta, parity.meta));
  }

  // ----- composing two handlers

  /** One page of each handler's listing, and what each answers to `get_tool`. */
  datatype Augmented = Augmented(
    primaryList: ListToolsResult, primaryTool: string -> Option<Tool>,
    parityList: ListToolsResult, parityTool: string -> Option<Tool>)

  /** `ParityAugmented::new` finds no parity name that the primary handler already answers to. */
  predicate Accepted(a: Augmented) {
    forall i :: 0 <= i < |ParityToolNames()| ==> a.primaryTool(ParityToolNames()[i]).None?
  }

  /** `call_tool` and `get_tool` ask this handler. */
  function Route(name: string): Handler {
    if ParityTool(name) then Parity else Primary
  }

  function GetTool(a: Augmented, name: string): Option<Tool> {
    if ParityTool(name) then a.parityTool(name) else a.primaryTool(name)
  }

  function Listing(a: Augmented): seq<Tool> {
    Merged(a.primaryList, a.parityList).tools
  }

  ghost predicate DistinctNames(tools: seq<Tool>) {
    forall i, j :: 0 <= i < j < |tools| ==> tools[i].name != tools[j].name
  }

  /** The embedded parity handler lists its fifteen tools, once each, and answers to those names. */
  ghost predicate ParityIsExact(a: Augmented) {
    && DistinctNames(a.parityList.tools)
    && (forall t :: t in a.parityList.tools ==>
          t.contributor == Parity && t.name in ParityToolNames() && a.parityTool(t.name) == Some(t))
    && (forall n :: n in ParityToolNames() ==> n in Names(a.parityList.tools))
  }

  ghost predicate PrimaryListIsItsOwn(a: Augmented) {
    && DistinctNames(a.primaryList.tools)
    && forall t :: t in a.primaryList.tools ==> t.contributor == Primary
  }

  ghost predicate PrimaryAgrees(a: Augmented) {
    forall t :: t in a.primaryList.tools ==> a.primaryTool(t.name) == Some(t)
  }

  lemma {:induction false} NewToolsOf(tools: seq<Tool>, names: set<string>)
    requires DistinctNames(tools)
    ensures forall t :: t in NewTools(tools, names) <==> t in tools && t.name !in names
    ensures DistinctNames(NewTools(tools, names))
  {
    if tools != [] {
      var head, rest := tools[0], tools[1..];
      forall i | 0 <= i < |rest| ensures rest[i].name != head.name {
        assert rest[i] == tools[i + 1];
      }
      if head.name in names {
        NewToolsOf(rest, names);
      } else {
        NewToolsOf(rest, names + {head.name});
        var more := NewTools(rest, names + {head.name});
        forall i | 0 <= i < |more| ensures more[i].name != head.name {
          assert more[i] in more;
        }
      }
    }
  }

  /** The listing: both handlers' tools, a parity tool yielding to a primary one of the same name. */
  lemma ListingElements(a: Augmented)
    requires ParityIsExact(a)
    ensures forall t :: t in Listing(a) <==>
              t in a.primaryList.tools || (t in a.parityList.tools && t.name !in Names(a.primaryList.tools))
    ensures SortedBy(Listing(a), ByName)
  {
    var primary, more := a.primaryList.tools, NewTools(a.parityList.tools, Names(a.primaryList.tools));
    NewToolsOf(a.parityList.tools, Names(primary));
    ByNameIsPreorder();
    SortSorts(primary + more, ByName);
  }

  lemma ListingIsDistinct(a: Augmented)
    requires ParityIsExact(a) && DistinctNames(a.primaryList.tools)
    ensures DistinctNames(Listing(a))
  {
    var primary, more := a.primaryList.tools, NewTools(a.parityList.tools, Names(a.primaryList.tools));
    NewToolsOf(a.parityList.tools, Names(primary));
    var all := primary + more;
    forall i, j | 0 <= i < j < |all| ensures all[i].name != all[j].name {
      if i < |primary| <= j {
        assert all[j] in more && all[i] in primary;
        assert all[i].name in Names(primary);
      }
    }
    ByNameIsPreorder();
    SortSorts(all, ByName);
    SameMultisetDistinct(all, Listing(a));
  }

  lemma {:induction false} OccursTwice(s: seq<Tool>, i: nat, j: nat)
    requires i < j < |s| && s[i] == s[j]
    ensures multiset(s)[s[i]] >= 2
  {
    assert s == s[..i + 1] + s[i + 1..];
    assert s[i] in s[..i + 1] && s[j] == s[i + 1..][j - i - 1];
    assert s[i] in multiset(s[..i + 1]) && s[i] in multiset(s[i + 1..]);
  }

  lemma {:induction false} DistinctOccursOnce(s: seq<Tool>, t: Tool)
    requires DistinctNames(s)
    ensures multiset(s)[t] <= 1
  {
    if s != [] {
      DistinctOccursOnce(s[1..], t);
      assert s == [s[0]] + s[1..];
      assert forall k :: 0 <= k < |s[1..]| ==> s[1..][k] == s[k + 1];
    }
  }

  /** Rearranging keeps names distinct. */
  lemma SameMultisetDistinct(s: seq<Tool>, t: seq<Tool>)
    requires DistinctNames(s) && multiset(s) == multiset(t)
    ensures DistinctNames(t)
  {
    forall i, j | 0 <= i < j < |t| ensures t[i].name != t[j].name {
      assert t[i] in multiset(s) && t[j] in multiset(s);
      var k :| 0 <= k < |s| && s[k] == t[i];
      var l :| 0 <= l < |s| && s[l] == t[j];
      if t[i].name == t[j].name {
        assert k == l;
        OccursTwice(t, i, j);
        DistinctOccursOnce(s, t[i]);
      }
    }
  }

  /** When the primary handler's list agrees with its `get_tool`, an accepted composition lists the
      exact union, in strict name order, and asks for each listed tool the handler it came from. */
  lemma ListingAgreesWithRouting(a: Augmented)
    requires Accepted(a) && ParityIsExact(a) && PrimaryListIsItsOwn(a) && PrimaryAgrees(a)
    ensures SortedBy(Listing(a), ByName) && DistinctNames(Listing(a))
    ensures forall t :: t in Listing(a) <==> t in a.primaryList.tools || t in a.parityList.tools
    ensures forall t :: t in Listing(a) ==> Route(t.name) == t.contributor && GetTool(a, t.name) == Some(t)
  {
    ListingElements(a);
    ListingIsDistinct(a);
    forall n ensures ParityTool(n) <==> n in ParityToolNames() {
      ParityToolIsMembership(n);
    }
  }

  /** Construction only asks `get_tool`. A primary handler that lists a parity name without answering
      to it is accepted, its descriptor is listed, and its calls go to the parity handler: listing and
      routing agree exactly when the primary list holds no parity name. */
  lemma RoutingAgreesIff(a: Augmented)
    requires Accepted(a) && ParityIsExact(a) && PrimaryListIsItsOwn(a)
    ensures (forall t :: t in Listing(a) ==> Route(t.name) == t.contributor) <==>
            (forall t :: t in a.primaryList.tools ==> t.name !in ParityToolNames())
  {
    ListingElements(a);
    forall n ensures ParityTool(n) <==> n in ParityToolNames() {
      ParityToolIsMembership(n);
    }
  }

  /** A `get_tool` that answers to no name. */
  function NoTool(name: string): Option<Tool> {
    None
  }

  /** Such a handler: it lists `org_identity`, and its `get_tool` answers to no name. */
  lemma AcceptedButMisrouted(a: Augmented)
    requires ParityIsExact(a) && a.primaryTool == NoTool
    requires a.primaryList.tools == [Tool("org_identity", "domain", Primary)]
    ensures Accepted(a) && PrimaryListIsItsOwn(a)
    ensures exists t :: t in Listing(a) && Route(t.name) != t.contributor
  {
    var own := a.primaryList.tools[0];
    assert own in a.primaryList.tools && ParityToolNames()[8] == own.name;
    RoutingAgreesIff(a);
  }

  function SharedTool(name: string): Option<Tool> {
    if name in ParityToolNames() then Some(Tool(name, "shared", Parity)) else None
  }

  function SharedTools(): seq<Tool> {
    seq(|ParityToolNames()|, i requires 0 <= i < |ParityToolNames()| => Tool(ParityToolNames()[i], "shared", Parity))
  }

  /** The composition with a parity handler that lists and answers its fifteen tools, and a primary one
      that lists a parity name without answering to it. */
  function MisroutedComposition(): Augmented {
    Augmented(ListToolsResult([Tool("org_identity", "domain", Primary)], None, None), NoTool,
              ListToolsResult(SharedTools(), None, None), SharedTool)
  }

  lemma MisroutedCompositionIsAccepted()
    ensures var a := MisroutedComposition();
            && Accepted(a) && ParityIsExact(a) && PrimaryListIsItsOwn(a)
            && exists t :: t in Listing(a) && Route(t.name) != t.contributor
  {
    var a, names := MisroutedComposition(), ParityToolNames();
    ParityNamesAscend();
    assert DistinctNames(SharedTools());
    forall n | n in names ensures n in Names(SharedTools()) {
      var i :| 0 <= i < |names| && names[i] == n;
      assert SharedTools()[i] in SharedTools() && SharedTools()[i].name == n;
    }
    AcceptedButMisrouted(a);
  }
}
