/** The page-token walk over the groups and then the scopes of a remote. */
module RemoteScopes {
  import opened Wrappers
  import opened Paging

  const PER_PAGE: nat := 100

  datatype Tag = TypeGroup | TypeProject

  /** What a page token carries. The empty token stands for FIRST. */
  datatype Query = Query(page: nat, perPage: nat, tag: Tag)

  const FIRST := Query(1, PER_PAGE, TypeGroup)

  datatype Child = Group(id: string) | Scope(id: string)

  /** The listings behind getGroup and getScope; None for a callback the plugin does not give. */
  datatype Remote = Remote(groups: Option<seq<string>>, scopes: Option<seq<string>>)

  function Groups(ids: seq<string>): (out: seq<Child>)
    ensures |out| == |ids|
  {
    seq(|ids|, i requires 0 <= i < |ids| => Group(ids[i]))
  }

  function Scopes(ids: seq<string>): (out: seq<Child>)
    ensures |out| == |ids|
  {
    seq(|ids|, i requires 0 <= i < |ids| => Scope(ids[i]))
  }

  /** Groups are returned as groups, and scopes as scopes. */
  lemma ChildrenAre(ids: seq<string>, i: nat)
    requires i < |ids|
    ensures Groups(ids)[i] == Group(ids[i]) && Scopes(ids)[i] == Scope(ids[i])
  {
  }

  datatype Response = Response(children: seq<Child>, next: Option<Query>)

  /** The response to a query as a value. */
  function Respond(remote: Remote, q: Query): Response
    requires q.page >= 1
  {
    var groups := if q.tag == TypeGroup && remote.groups.Some? then PageOf(remote.groups.value, q.perPage, q.page) else [];
    var q' := if q.tag == TypeGroup && |groups| < q.perPage then Query(1, q.perPage - |groups|, TypeProject) else q;
    if q'.tag == TypeProject && remote.scopes.Some? then
      var scopes := PageOf(remote.scopes.value, q'.perPage, q'.page);
      Response(Groups(groups) + Scopes(scopes),
               if |scopes| < q'.perPage then None else Some(Query(q'.page + 1, PER_PAGE, q'.tag)))
    else
      Response(Groups(groups), Some(Query(q'.page + 1, PER_PAGE, q'.tag)))
  }

  method AppendGroups(children: seq<Child>, ids: seq<string>) returns (out: seq<Child>)
    ensures out == children + Groups(ids)
  {
    out := children;
    for i := 0 to |ids|
      invariant out == children + Groups(ids[..i])
    {
      out := out + [Group(ids[i])];
    }
    assert ids[..|ids|] == ids;
  }

  method AppendScopes(children: seq<Child>, ids: seq<string>) returns (out: seq<Child>)
    ensures out == children + Scopes(ids)
  {
    out := children;
    for i := 0 to |ids|
      invariant out == children + Scopes(ids[..i])
    {
      out := out + [Scope(ids[i])];
    }
    assert ids[..|ids|] == ids;
  }

  /** One request, updating the query on the way. */
  method GetScopesFromRemote(remote: Remote, token: Option<Query>) returns (children: seq<Child>, next: Option<Query>)
    requires token.Some? ==> token.value.page >= 1
    ensures Response(children, next) == Respond(remote, if token.Some? then token.value else FIRST)
  {
    hide PageOf;
    hide Groups;
    hide Scopes;
    var q := if token.Some? then token.value else FIRST;
    children := [];
    NoGroups();
    if q.tag == TypeGroup {
      var resBody := if remote.groups.Some? then PageOf(remote.groups.value, q.perPage, q.page) else [];
      children := AppendGroups(children, resBody);
      assert children == Groups(resBody);
      if |resBody| < q.perPage {
        q := Query(1, q.perPage - |resBody|, TypeProject);
      }
    }
    if q.tag == TypeProject && remote.scopes.Some? {
      var resBody := PageOf(remote.scopes.value, q.perPage, q.page);
      children := AppendScopes(children, resBody);
      if |resBody| < q.perPage {
        return children, None;
      }
    }
    next := Some(Query(q.page + 1, PER_PAGE, q.tag));
  }

  lemma NoGroups()
    ensures Groups([]) == []
  {
  }

  // ---------------------------------------------------------------------------------------------
  // The walk

  /** The token after `n` responses, None once the walk has ended. */
  function TokenAfter(remote: Remote, n: nat): (token: Option<Query>)
    ensures token.Some? ==> token.value.page >= 1
  {
    if n == 0 then Some(FIRST)
    else
      match TokenAfter(remote, n - 1)
      case None => None
      case Some(q) => Respond(remote, q).next
  }

  /** The children of the first `n` responses. */
  function ChildrenAfter(remote: Remote, n: nat): seq<Child> {
    if n == 0 then []
    else
      ChildrenAfter(remote, n - 1)
      + match TokenAfter(remote, n - 1) case None => [] case Some(q) => Respond(remote, q).children
  }

  function AllGroups(remote: Remote): seq<string> {
    if remote.groups.Some? then remote.groups.value else []
  }

  /** The number of groups on the last, short page of groups. */
  function Rest(remote: Remote): (g: nat)
    ensures g < PER_PAGE && g == |AllGroups(remote)| % 100
  {
    |AllGroups(remote)| % 100
  }

  /** Where the first page of scopes ends: it shares the request with the last groups. */
  function Gap(remote: Remote): nat {
    PER_PAGE - Rest(remote)
  }

  /** Everything a walk returns: the groups in order, and the scopes but for those in `[Gap, 100)`. */
  function Returned(remote: Remote): seq<Child>
    requires remote.scopes.Some?
  {
    var s := remote.scopes.value;
    Groups(AllGroups(remote)) + (Scopes(s[..Min(|s|, Gap(remote))]) + Scopes(s[Min(|s|, PER_PAGE)..]))
  }

  /** The number of requests that return groups only. */
  function GroupPages(remote: Remote): nat {
    |AllGroups(remote)| / 100
  }

  ghost predicate OnGroups(remote: Remote, n: nat) {
    && n <= GroupPages(remote)
    && TokenAfter(remote, n) == Some(Query(n + 1, PER_PAGE, TypeGroup))
    && 100 * n <= |AllGroups(remote)|
    && ChildrenAfter(remote, n) == Groups(AllGroups(remote)[..100 * n])
  }

  /** `m` pages of scopes have been requested, the first of them short by the rest of the groups. */
  ghost predicate OnScopes(remote: Remote, n: nat, m: nat) {
    && m >= 1 && n == GroupPages(remote) + m
    && TokenAfter(remote, n) == Some(Query(m + 1, PER_PAGE, TypeProject))
    && match remote.scopes
       case None => ChildrenAfter(remote, n) == Groups(AllGroups(remote))
       case Some(s) =>
         && |s| >= Gap(remote) && (m >= 2 ==> |s| >= 100 * m)
         && ChildrenAfter(remote, n)
            == Groups(AllGroups(remote)) + (Scopes(s[..Gap(remote)]) + Scopes(s[Min(|s|, 100)..Min(|s|, 100 * m)]))
  }

  ghost predicate Ended(remote: Remote, n: nat) {
    TokenAfter(remote, n) == None && remote.scopes.Some? && ChildrenAfter(remote, n) == Returned(remote)
  }

  lemma Next(remote: Remote, n: nat, q: Query)
    requires TokenAfter(remote, n) == Some(q) && q.page >= 1
    ensures TokenAfter(remote, n + 1) == Respond(remote, q).next
    ensures ChildrenAfter(remote, n + 1) == ChildrenAfter(remote, n) + Respond(remote, q).children
  {
  }

  lemma GroupsJoin(ids: seq<string>, a: nat, b: nat)
    requires a <= b <= |ids|
    ensures Groups(ids[..a]) + Groups(ids[a..b]) == Groups(ids[..b])
    ensures b == |ids| ==> ids[..b] == ids && ids[a..b] == ids[a..]
  {
  }

  lemma ScopesJoin(ids: seq<string>, a: nat, b: nat, c: nat)
    requires a <= b <= c <= |ids|
    ensures Scopes(ids[a..b]) + Scopes(ids[b..c]) == Scopes(ids[a..c])
    ensures c == |ids| ==> ids[a..c] == ids[a..]
  {
  }

  lemma FullGroupPage(remote: Remote, n: nat)
    requires |AllGroups(remote)| >= 100 * n + 100
    ensures Respond(remote, Query(n + 1, PER_PAGE, TypeGroup))
            == Response(Groups(AllGroups(remote)[100 * n..100 * n + 100]), Some(Query(n + 2, PER_PAGE, TypeGroup)))
  {
  }

  lemma LastGroupPage(remote: Remote, n: nat)
    requires n == GroupPages(remote)
    ensures Respond(remote, Query(n + 1, PER_PAGE, TypeGroup))
            == match remote.scopes
               case None => Response(Groups(AllGroups(remote)[100 * n..]), Some(Query(2, PER_PAGE, TypeProject)))
               case Some(s) =>
                 Response(Groups(AllGroups(remote)[100 * n..]) + Scopes(s[..Min(|s|, Gap(remote))]),
                          if |s| < Gap(remote) then None else Some(Query(2, PER_PAGE, TypeProject)))
  {
    hide Groups;
    hide Scopes;
    LastGroups(remote, n);
    if remote.scopes.Some? {
      FirstPage(remote.scopes.value, Gap(remote));
    }
    hide PageOf;
  }

  lemma LastGroups(remote: Remote, n: nat)
    requires n == GroupPages(remote)
    ensures 100 * n <= |AllGroups(remote)|
    ensures (if remote.groups.Some? then PageOf(remote.groups.value, PER_PAGE, n + 1) else []) == AllGroups(remote)[100 * n..]
    ensures |AllGroups(remote)[100 * n..]| == Rest(remote)
  {
  }

  lemma FirstPage(ids: seq<string>, size: nat)
    ensures PageOf(ids, size, 1) == ids[..Min(|ids|, size)]
  {
  }

  lemma AnyScopePage(remote: Remote, m: nat)
    requires m >= 1
    ensures Respond(remote, Query(m + 1, PER_PAGE, TypeProject))
            == match remote.scopes
               case None => Response([], Some(Query(m + 2, PER_PAGE, TypeProject)))
               case Some(s) =>
                 Response(Scopes(s[Min(|s|, 100 * m)..Min(|s|, 100 * m + 100)]),
                          if |s| < 100 * m + 100 then None else Some(Query(m + 2, PER_PAGE, TypeProject)))
  {
    assert Groups([]) == [];
    if remote.scopes.Some? {
      var s := remote.scopes.value;
      var page := PageOf(s, PER_PAGE, m + 1);
      assert page == s[Min(|s|, 100 * m)..Min(|s|, 100 * m + 100)];
      assert Groups([]) + Scopes(page) == Scopes(page);
    }
  }

  lemma GroupPage(remote: Remote, n: nat)
    requires OnGroups(remote, n)
    ensures OnGroups(remote, n + 1) || OnScopes(remote, n + 1, 1) || Ended(remote, n + 1)
  {
    hide Respond;
    hide Groups;
    hide Scopes;
    hide TokenAfter;
    hide ChildrenAfter;
    Next(remote, n, Query(n + 1, PER_PAGE, TypeGroup));
    var g := AllGroups(remote);
    if n < GroupPages(remote) {
      FullGroupPage(remote, n);
      GroupsJoin(g, 100 * n, 100 * n + 100);
    } else {
      LastGroupPage(remote, n);
      GroupsJoin(g, 100 * n, |g|);
      if remote.scopes.Some? {
        FirstScopes(remote);
        var first := Scopes(remote.scopes.value[..Min(|remote.scopes.value|, Gap(remote))]);
        assert first + [] == first;
        assert ChildrenAfter(remote, n + 1) == Groups(g) + first;
      }
    }
  }

  lemma FirstScopes(remote: Remote)
    requires remote.scopes.Some?
    ensures var s := remote.scopes.value;
            && Scopes(s[Min(|s|, 100)..Min(|s|, 100 * 1)]) == []
            && (|s| < Gap(remote) ==> Scopes(s[Min(|s|, PER_PAGE)..]) == [])
  {
  }

  lemma ScopePage(remote: Remote, n: nat, m: nat)
    requires OnScopes(remote, n, m)
    ensures OnScopes(remote, n + 1, m + 1) || Ended(remote, n + 1)
  {
    hide Respond;
    hide Groups;
    hide Scopes;
    hide TokenAfter;
    hide ChildrenAfter;
    Next(remote, n, Query(m + 1, PER_PAGE, TypeProject));
    AnyScopePage(remote, m);
    if remote.scopes.Some? {
      var s := remote.scopes.value;
      ScopesJoin(s, Min(|s|, 100), Min(|s|, 100 * m), Min(|s|, 100 * m + 100));
      var g, first := Groups(AllGroups(remote)), Scopes(s[..Gap(remote)]);
      var before, page := Scopes(s[Min(|s|, 100)..Min(|s|, 100 * m)]), Scopes(s[Min(|s|, 100 * m)..Min(|s|, 100 * m + 100)]);
      assert g + (first + before) + page == g + (first + (before + page));
    } else {
      assert Groups(AllGroups(remote)) + [] == Groups(AllGroups(remote));
    }
  }

  /** After any number of requests the walk is on the groups, on the scopes, or over. */
  lemma {:induction false} Walked(remote: Remote, n: nat)
    ensures OnGroups(remote, n) || (n > GroupPages(remote) && OnScopes(remote, n, n - GroupPages(remote))) || Ended(remote, n)
  {
    hide Respond;
    hide Scopes;
    if n == 0 {
      assert Groups(AllGroups(remote)[..0]) == [];
    } else {
      hide Groups;
      hide OnGroups;
      hide OnScopes;
      hide Ended;
      Walked(remote, n - 1);
      Walk1(remote, n - 1);
    }
  }

  lemma Walk1(remote: Remote, n: nat)
    requires OnGroups(remote, n) || (n > GroupPages(remote) && OnScopes(remote, n, n - GroupPages(remote))) || Ended(remote, n)
    ensures var k := n + 1 - GroupPages(remote);
            OnGroups(remote, n + 1) || (k >= 1 && OnScopes(remote, n + 1, k)) || Ended(remote, n + 1)
  {
    hide Respond;
    hide Groups;
    hide Scopes;
    if OnGroups(remote, n) {
      GroupPage(remote, n);
    } else if Ended(remote, n) {
      assert ChildrenAfter(remote, n + 1) == ChildrenAfter(remote, n);
    } else {
      ScopePage(remote, n, n - GroupPages(remote));
    }
  }

  /** The walk ends exactly when the plugin gives a getScope callback. */
  lemma WalkEndsIff(remote: Remote)
    ensures (exists n :: TokenAfter(remote, n) == None) <==> remote.scopes.Some?
  {
    if remote.scopes.Some? {
      var n := GroupPages(remote) + |remote.scopes.value| + 2;
      Walked(remote, n);
      assert TokenAfter(remote, n) == None;
    } else {
      forall n ensures TokenAfter(remote, n) != None {
        Walked(remote, n);
      }
    }
  }

  /** A walk that ends returns every group once and every scope outside the gap once, in order. */
  lemma WalkReturns(remote: Remote, n: nat)
    requires TokenAfter(remote, n) == None
    ensures remote.scopes.Some? && ChildrenAfter(remote, n) == Returned(remote)
  {
    Walked(remote, n);
  }

  /** Nothing is missing exactly when the groups fill whole pages or the scopes end before the gap. */
  lemma ReturnsAllIff(remote: Remote, n: nat)
    requires TokenAfter(remote, n) == None
    ensures remote.scopes.Some?
    ensures ChildrenAfter(remote, n) == Groups(AllGroups(remote)) + Scopes(remote.scopes.value)
            <==> |AllGroups(remote)| % 100 == 0 || |remote.scopes.value| <= 100 - |AllGroups(remote)| % 100
  {
    hide ChildrenAfter;
    hide TokenAfter;
    hide Groups;
    hide Scopes;
    WalkReturns(remote, n);
    var s := remote.scopes.value;
    var a, b := Min(|s|, Gap(remote)), Min(|s|, PER_PAGE);
    assert s[..a] == s[0..a];
    if a == b {
      ScopesJoin(s, 0, a, |s|);
    } else {
      assert |Scopes(s[..a]) + Scopes(s[b..])| < |s|;
    }
  }
}
