/** Following a paginated answer from page to page: what the loop of a client collects, independently
    of how a client finds the next page. */
module Paging {
  import opened Seqs

  /** One request: it fails, or gives a body and the address of the next page, "" after the last. */
  datatype Fetched = Failed | Fetched(body: string, next: string)

  /** The server's addresses lead to an end, or to a failure, after at most `n` requests. */
  ghost predicate Ends(fetch: string -> Fetched, url: string, n: nat)
    decreases n
  {
    url == "" || (n > 0 && (fetch(url).Failed? || Ends(fetch, fetch(url).next, n - 1)))
  }

  /** The first `n` addresses requested, in order. */
  ghost function Visits(fetch: string -> Fetched, url: string, n: nat): seq<string>
    decreases n
  {
    if url == "" || n == 0 then [] else [url] + if fetch(url).Failed? then [] else Visits(fetch, fetch(url).next, n - 1)
  }

  /** All bodies, or nothing when a request fails. */
  ghost function Walk(fetch: string -> Fetched, url: string, n: nat): Option<seq<string>>
    requires Ends(fetch, url, n)
    decreases n
  {
    if url == "" then Some([])
    else if fetch(url).Failed? then None
    else Joined([fetch(url).body], Walk(fetch, fetch(url).next, n - 1))
  }

  /** Bodies already collected in front of those still to come. */
  function Joined(bodies: seq<string>, rest: Option<seq<string>>): Option<seq<string>> {
    match rest
    case None => None
    case Some(more) => Some(bodies + more)
  }

  lemma JoinedTwice(a: seq<string>, b: seq<string>, rest: Option<seq<string>>)
    ensures Joined(a, Joined(b, rest)) == Joined(a + b, rest)
  {
    if rest.Some? {
      Regroup(a, b, rest.value);
    }
  }

  /** Where the loop stands: what it collected, followed by what is to come, is the whole walk. */
  ghost predicate Walking(fetch: string -> Fetched, start: string, n: nat, url: string, left: nat,
                          bodies: seq<string>, visited: seq<string>) {
    && (Ends(fetch, start, n) <==> Ends(fetch, url, left))
    && Visits(fetch, start, n) == visited + Visits(fetch, url, left)
    && (Ends(fetch, url, left) ==> Walk(fetch, start, n) == Joined(bodies, Walk(fetch, url, left)))
  }

  lemma WalkStarts(fetch: string -> Fetched, start: string, n: nat)
    ensures Walking(fetch, start, n, start, n, [], [])
  {
    if Ends(fetch, start, n) {
      var rest := Walk(fetch, start, n);
      assert rest.Some? ==> [] + rest.value == rest.value;
    }
    assert [] + Visits(fetch, start, n) == Visits(fetch, start, n);
  }

  lemma VisitsStep(fetch: string -> Fetched, url: string, n: nat)
    requires url != "" && n > 0 && fetch(url).Fetched?
    ensures Visits(fetch, url, n) == [url] + Visits(fetch, fetch(url).next, n - 1)
  {
  }

  lemma WalkStep(fetch: string -> Fetched, url: string, n: nat)
    requires url != "" && n > 0 && fetch(url).Fetched?
    ensures Ends(fetch, url, n) <==> Ends(fetch, fetch(url).next, n - 1)
    ensures Ends(fetch, url, n) ==> Walk(fetch, url, n) == Joined([fetch(url).body], Walk(fetch, fetch(url).next, n - 1))
  {
  }

  /** A successful request moves its page from what is to come to what was collected. */
  lemma WalkOn(fetch: string -> Fetched, start: string, n: nat, url: string, left: nat,
               bodies: seq<string>, visited: seq<string>)
    requires Walking(fetch, start, n, url, left, bodies, visited) && url != "" && left > 0 && fetch(url).Fetched?
    ensures Walking(fetch, start, n, fetch(url).next, left - 1, bodies + [fetch(url).body], visited + [url])
  {
    var next := fetch(url).next;
    WalkStep(fetch, url, left);
    VisitsStep(fetch, url, left);
    if Ends(fetch, next, left - 1) {
      JoinedTwice(bodies, [fetch(url).body], Walk(fetch, next, left - 1));
    }
    Regroup(visited, [url], Visits(fetch, next, left - 1));
  }

  lemma WalkFails(fetch: string -> Fetched, start: string, n: nat, url: string, left: nat,
                  bodies: seq<string>, visited: seq<string>)
    requires Walking(fetch, start, n, url, left, bodies, visited) && url != "" && left > 0 && fetch(url).Failed?
    ensures Ends(fetch, start, n) && Walk(fetch, start, n) == None && Visits(fetch, start, n) == visited + [url]
  {
    assert Visits(fetch, url, left) == [url];
  }

  lemma WalkStops(fetch: string -> Fetched, start: string, n: nat, url: string, left: nat,
                  bodies: seq<string>, visited: seq<string>)
    requires Walking(fetch, start, n, url, left, bodies, visited) && (url == "" || left == 0)
    ensures Visits(fetch, start, n) == visited && (Ends(fetch, start, n) <==> url == "")
    ensures Ends(fetch, start, n) ==> Walk(fetch, start, n) == Some(bodies)
  {
    assert bodies + [] == bodies && visited + [] == visited;
  }

  /** The loop both clients have, watched for at most `n` requests to any server at all: it has ended
      if and only if the addresses lead to an end within them. */
  method GetAll(fetch: string -> Fetched, baseURL: string, url: string, n: nat)
    returns (ended: bool, pages: Option<seq<string>>, visited: seq<string>)
    ensures ended <==> Ends(fetch, Absolute(baseURL, url), n)
    ensures ended ==> pages == Walk(fetch, Absolute(baseURL, url), n)
    ensures visited == Visits(fetch, Absolute(baseURL, url), n)
    ensures visited != [] ==> visited[0] == if "http" <= url then url else baseURL + url
  {
    var currentURL := Absolute(baseURL, url);
    ghost var start := currentURL;
    var left, bodies: seq<string> := n, [];
    visited := [];
    WalkStarts(fetch, start, n);
    while currentURL != "" && left > 0
      invariant Walking(fetch, start, n, currentURL, left, bodies, visited)
      decreases left
    {
      var fetched := fetch(currentURL);
      if fetched.Failed? {
        WalkFails(fetch, start, n, currentURL, left, bodies, visited);
        return true, None, visited + [currentURL];
      }
      WalkOn(fetch, start, n, currentURL, left, bodies, visited);
      bodies, visited, currentURL, left := bodies + [fetched.body], visited + [currentURL], fetched.next, left - 1;
    }
    WalkStops(fetch, start, n, currentURL, left, bodies, visited);
    ended, pages := currentURL == "", Some(bodies);
  }

  /** A server whose addresses lead on for ever is asked for ever: every further request is made. */
  lemma {:induction false} AskedForEver(fetch: string -> Fetched, url: string, n: nat)
    ensures |Visits(fetch, url, n)| <= n
    ensures !Ends(fetch, url, n) ==> |Visits(fetch, url, n)| == n
    decreases n
  {
    if url != "" && n > 0 && fetch(url).Fetched? {
      AskedForEver(fetch, fetch(url).next, n - 1);
    }
  }

  /** The addresses form a chain: each page names the next, the last names none. */
  ghost predicate Chain(fetch: string -> Fetched, urls: seq<string>, bodies: seq<string>) {
    |urls| == |bodies| && forall k :: 0 <= k < |urls| ==> urls[k] != "" && fetch(urls[k]) == Fetched(bodies[k], After(urls, k))
  }

  function After(urls: seq<string>, k: nat): string {
    if k + 1 < |urls| then urls[k + 1] else ""
  }

  lemma ChainTail(fetch: string -> Fetched, urls: seq<string>, bodies: seq<string>)
    requires urls != [] && Chain(fetch, urls, bodies)
    ensures Chain(fetch, urls[1..], bodies[1..])
  {
    forall k | 0 <= k < |urls| - 1
      ensures urls[1..][k] != "" && fetch(urls[1..][k]) == Fetched(bodies[1..][k], After(urls[1..], k))
    {
      assert After(urls[1..], k) == After(urls, k + 1);
      assert fetch(urls[k + 1]) == Fetched(bodies[k + 1], After(urls, k + 1));
    }
  }

  lemma LastStep(fetch: string -> Fetched, url: string, body: string)
    requires url != "" && fetch(url) == Fetched(body, "")
    ensures Ends(fetch, url, 1) && Visits(fetch, url, 1) == [url] && Walk(fetch, url, 1) == Some([body])
  {
    WalkStep(fetch, url, 1);
    VisitsStep(fetch, url, 1);
    assert [body] + [] == [body] && [url] + [] == [url];
  }

  lemma FirstStep(fetch: string -> Fetched, url: string, body: string, n: nat, urls: seq<string>, bodies: seq<string>)
    requires url != "" && urls != [] && fetch(url) == Fetched(body, urls[0])
    requires Ends(fetch, urls[0], n) && Visits(fetch, urls[0], n) == urls && Walk(fetch, urls[0], n) == Some(bodies)
    ensures Ends(fetch, url, n + 1)
    ensures Visits(fetch, url, n + 1) == [url] + urls && Walk(fetch, url, n + 1) == Some([body] + bodies)
  {
    WalkStep(fetch, url, n + 1);
    VisitsStep(fetch, url, n + 1);
  }

  /** A chain is walked exactly: every page once, in order, to the end. */
  lemma {:induction false} ChainWalked(fetch: string -> Fetched, urls: seq<string>, bodies: seq<string>)
    requires urls != [] && Chain(fetch, urls, bodies)
    ensures Ends(fetch, urls[0], |urls|)
    ensures Visits(fetch, urls[0], |urls|) == urls && Walk(fetch, urls[0], |urls|) == Some(bodies)
    decreases |urls|
  {
    assert fetch(urls[0]) == Fetched(bodies[0], After(urls, 0));
    if |urls| == 1 {
      LastStep(fetch, urls[0], bodies[0]);
      assert urls == [urls[0]] && bodies == [bodies[0]];
    } else {
      ChainTail(fetch, urls, bodies);
      ChainWalked(fetch, urls[1..], bodies[1..]);
      FirstStep(fetch, urls[0], bodies[0], |urls| - 1, urls[1..], bodies[1..]);
      assert urls == [urls[0]] + urls[1..] && bodies == [bodies[0]] + bodies[1..];
    }
  }

  /** A walk succeeds if and only if every request on the way did, and then it gives their bodies, in the
      order in which they were asked for. */
  lemma {:induction false} WalkBodies(fetch: string -> Fetched, url: string, n: nat)
    requires Ends(fetch, url, n)
    ensures var visits, walk := Visits(fetch, url, n), Walk(fetch, url, n);
            && (walk.Some? <==> forall u :: u in visits ==> fetch(u).Fetched?)
            && (walk.Some? ==> |walk.value| == |visits|
                               && forall k :: 0 <= k < |visits| ==> walk.value[k] == fetch(visits[k]).body)
    decreases n
  {
    if url != "" {
      if fetch(url).Fetched? {
        VisitsStep(fetch, url, n);
        WalkStep(fetch, url, n);
        WalkBodies(fetch, fetch(url).next, n - 1);
      }
      assert url == Visits(fetch, url, n)[0];
    }
  }

  lemma {:induction false} SameVisits(fetch: string -> Fetched, url: string, n: nat, m: nat)
    requires Ends(fetch, url, n) && Ends(fetch, url, m)
    ensures Visits(fetch, url, n) == Visits(fetch, url, m)
    decreases n
  {
    if url != "" && fetch(url).Fetched? {
      SameVisits(fetch, fetch(url).next, n - 1, m - 1);
    }
  }

  lemma {:induction false} EndsFrom(fetch: string -> Fetched, url: string, n: nat, i: nat) returns (m: nat)
    requires Ends(fetch, url, n) && i < |Visits(fetch, url, n)|
    ensures Ends(fetch, Visits(fetch, url, n)[i], m)
    decreases i
  {
    if i == 0 {
      m := n;
    } else {
      VisitsStep(fetch, url, n);
      m := EndsFrom(fetch, fetch(url).next, n - 1, i - 1);
    }
  }

  /** How many requests are still to come from a requested address on tells its position. */
  lemma {:induction false} RequestsLeft(fetch: string -> Fetched, url: string, n: nat, i: nat, m: nat)
    requires Ends(fetch, url, n) && i < |Visits(fetch, url, n)| && Ends(fetch, Visits(fetch, url, n)[i], m)
    ensures LeftAt(fetch, Visits(fetch, url, n), i, m)
    decreases i
  {
    if i == 0 {
      SameVisits(fetch, url, n, m);
    } else {
      VisitsStep(fetch, url, n);
      RequestsLeft(fetch, fetch(url).next, n - 1, i - 1, m);
      LeftBehind(fetch, url, Visits(fetch, fetch(url).next, n - 1), i - 1, m);
    }
  }

  ghost predicate LeftAt(fetch: string -> Fetched, visits: seq<string>, i: nat, m: nat) {
    i < |visits| && |Visits(fetch, visits[i], m)| == |visits| - i
  }

  lemma LeftBehind(fetch: string -> Fetched, first: string, visits: seq<string>, i: nat, m: nat)
    requires LeftAt(fetch, visits, i, m)
    ensures LeftAt(fetch, [first] + visits, i + 1, m)
  {
  }

  /** A loop that ends never asks for the same address twice, whatever the server answers. */
  lemma NeverTwice(fetch: string -> Fetched, url: string, n: nat)
    requires Ends(fetch, url, n)
    ensures NoRepeats(Visits(fetch, url, n))
  {
    forall i, j | 0 <= i < j < |Visits(fetch, url, n)|
      ensures Visits(fetch, url, n)[i] != Visits(fetch, url, n)[j]
    {
      var m := EndsFrom(fetch, url, n, i);
      RequestsLeft(fetch, url, n, i, m);
      if Visits(fetch, url, n)[i] == Visits(fetch, url, n)[j] {
        RequestsLeft(fetch, url, n, j, m);
        assert false;
      }
    }
  }

  /** The answer of a server: no connection, or a status with a body and one header. */
  datatype Reply = NoReply | Reply(status: int, body: string, header: string)

  /** The relative addresses of the configuration. */
  function Absolute(baseURL: string, url: string): string {
    if "http" <= url then url else baseURL + url
  }
}
