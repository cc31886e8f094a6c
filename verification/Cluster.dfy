/** The linked-identity cluster of a user (src/subscription/linked-user-cluster.util.ts). */
module LinkedCluster {
  import opened Common

  ghost predicate Adjacent(links: seq<Link>, a: UserId, b: UserId) {
    Link(a, b) in links || Link(b, a) in links
  }

  ghost predicate IsPath(links: seq<Link>, path: seq<UserId>) {
    forall i {:trigger path[i]} :: 0 < i < |path| ==> Adjacent(links, path[i - 1], path[i])
  }

  /** Some undirected path of links leads from a to b. */
  ghost predicate Reachable(links: seq<Link>, a: UserId, b: UserId) {
    exists path: seq<UserId> ::
      |path| > 0 && path[0] == a && path[|path| - 1] == b && IsPath(links, path)
  }

  ghost function Users(links: seq<Link>, start: UserId): set<UserId> {
    {start} + (set l | l in links :: l.primary) + (set l | l in links :: l.linked)
  }

  lemma ReachesItself(links: seq<Link>, a: UserId)
    ensures Reachable(links, a, a)
  {
    var path := [a];
    assert path[0] == a && IsPath(links, path);
  }

  lemma ReachesNeighbour(links: seq<Link>, a: UserId, b: UserId, c: UserId)
    requires Reachable(links, a, b) && Adjacent(links, b, c)
    ensures Reachable(links, a, c)
  {
    var path: seq<UserId> :| |path| > 0 && path[0] == a && path[|path| - 1] == b && IsPath(links, path);
    var longer := path + [c];
    assert longer[0] == a && longer[|longer| - 1] == c;
    assert IsPath(links, longer);
  }

  ghost predicate Closed(links: seq<Link>, s: set<UserId>) {
    forall a, b :: a in s && Adjacent(links, a, b) ==> b in s
  }

  lemma {:induction false} ClosedContainsPath(links: seq<Link>, s: set<UserId>, path: seq<UserId>)
    requires Closed(links, s) && |path| > 0 && path[0] in s && IsPath(links, path)
    ensures path[|path| - 1] in s
  {
    if |path| == 1 {
    } else {
      var shorter := path[..|path| - 1];
      assert IsPath(links, shorter);
      ClosedContainsPath(links, s, shorter);
      assert Adjacent(links, path[|path| - 2], path[|path| - 1]);
    }
  }

  /** findMany({ where: { OR: [{ primaryUserId: id }, { linkedUserId: id }] } }) */
  function LinksOf(links: seq<Link>, id: UserId): (rows: seq<Link>)
    ensures forall l :: l in rows <==> l in links && l.Touches(id)
  {
    if links == [] then []
    else (if links[0].Touches(id) then [links[0]] else []) + LinksOf(links[1..], id)
  }

  ghost predicate NoDuplicates(s: seq<UserId>) {
    forall i, j :: 0 <= i < j < |s| ==> s[i] != s[j]
  }

  /** The inner loop: the neighbours not seen before join the visited set and the queue. */
  method VisitNeighbours(rows: seq<Link>, id: UserId, seen: seq<UserId>, pending: seq<UserId>)
    returns (visited: seq<UserId>, queue: seq<UserId>, ghost added: seq<UserId>)
    requires NoDuplicates(seen)
    ensures visited == seen + added && queue == pending + added && NoDuplicates(visited)
    ensures forall u :: u in added ==> exists l :: l in rows && l.Other(id) == u
    ensures forall l :: l in rows ==> l.Other(id) in visited
  {
    visited, queue, added := seen, pending, [];
    for i := 0 to |rows|
      invariant visited == seen + added && queue == pending + added && NoDuplicates(visited)
      invariant forall u :: u in added ==> exists l :: l in rows && l.Other(id) == u
      invariant forall k :: 0 <= k < i ==> rows[k].Other(id) in visited
    {
      var other := rows[i].Other(id);
      if other !in visited {
        visited := visited + [other];
        queue := queue + [other];
        added := added + [other];
      }
    }
  }

  /** The search returns exactly the users reachable from the start, each once. */
  method GetLinkedUserClusterIds(links: seq<Link>, startUserId: UserId) returns (visited: seq<UserId>)
    ensures NoDuplicates(visited)
    ensures forall u :: u in visited <==> Reachable(links, startUserId, u)
  {
    visited := [startUserId];
    var queue := [startUserId];
    ReachesItself(links, startUserId);
    ghost var all := Users(links, startUserId);
    while |queue| > 0
      invariant startUserId in visited && NoDuplicates(visited)
      invariant forall u :: u in visited ==> u in all && Reachable(links, startUserId, u)
      invariant forall u :: u in queue ==> u in visited
      invariant forall a, b :: a in visited && a !in queue && Adjacent(links, a, b) ==> b in visited
      decreases |all| - |visited|, |queue|
    {
      var id := queue[0];
      ghost var before := visited;
      ghost var added: seq<UserId>;
      visited, queue, added := VisitNeighbours(LinksOf(links, id), id, visited, queue[1..]);
      NeighboursReached(links, startUserId, id, before, added, visited);
      VisitedFitsUsers(visited, all);
    }
    ReachableIsVisited(links, startUserId, visited);
  }

  lemma NeighboursReached(links: seq<Link>, start: UserId, id: UserId, before: seq<UserId>, added: seq<UserId>,
                          visited: seq<UserId>)
    requires visited == before + added && id in before
    requires forall u :: u in before ==> u in Users(links, start) && Reachable(links, start, u)
    requires forall u :: u in added ==> exists l :: l in LinksOf(links, id) && l.Other(id) == u
    requires forall l :: l in LinksOf(links, id) ==> l.Other(id) in visited
    ensures forall u :: u in visited ==> u in Users(links, start) && Reachable(links, start, u)
    ensures forall b :: Adjacent(links, id, b) ==> b in visited
  {
    forall u | u in added
      ensures u in Users(links, start) && Reachable(links, start, u)
    {
      var l :| l in LinksOf(links, id) && l.Other(id) == u;
      assert l == Link(l.primary, l.linked);
      ReachesNeighbour(links, start, id, u);
    }
    forall b | Adjacent(links, id, b)
      ensures b in visited
    {
      var l := if Link(id, b) in links then Link(id, b) else Link(b, id);
      assert l in LinksOf(links, id);
    }
  }

  lemma {:induction false} VisitedFitsUsers(visited: seq<UserId>, all: set<UserId>)
    requires NoDuplicates(visited) && forall u :: u in visited ==> u in all
    ensures |visited| <= |all|
  {
    if visited == [] {
    } else {
      var last := visited[|visited| - 1];
      var init := visited[..|visited| - 1];
      assert forall u :: u in init ==> u in all - {last};
      VisitedFitsUsers(init, all - {last});
    }
  }

  lemma ReachableIsVisited(links: seq<Link>, start: UserId, visited: seq<UserId>)
    requires start in visited
    requires forall a, b :: a in visited && Adjacent(links, a, b) ==> b in visited
    ensures forall u :: Reachable(links, start, u) ==> u in visited
  {
    var s := set v | v in visited;
    forall u | Reachable(links, start, u)
      ensures u in visited
    {
      var path: seq<UserId> :|
        |path| > 0 && path[0] == start && path[|path| - 1] == u && IsPath(links, path);
      ClosedContainsPath(links, s, path);
    }
  }
}
