/** GitLab pagination: the next page is the current address with its page parameter replaced. */
module GitLabPaging {
  import opened Paging
  import opened Seqs

  // ----- Addresses as a head and a list of parameters

  function Head(url: string): (head: string)
    ensures '?' !in head && head <= url
  {
    if url == "" || url[0] == '?' then ""
    else
      var rest := Head(url[1..]);
      assert url == [url[0]] + url[1..];
      [url[0]] + rest
  }

  function Params(url: string): (params: seq<string>)
    ensures forall p :: p in params ==> '&' !in p
  {
    if |Head(url)| == |url| then [] else Split(url[|Head(url)| + 1..], '&')
  }

  function Address(head: string, params: seq<string>): string {
    if params == [] then head else head + "?" + Join(params, '&')
  }

  lemma {:induction false} HeadOf(head: string, tail: string)
    requires '?' !in head && (tail == "" || tail[0] == '?')
    ensures Head(head + tail) == head
  {
    if head == "" {
      assert head + tail == tail;
    } else {
      assert (head + tail)[1..] == head[1..] + tail;
      HeadOf(head[1..], tail);
    }
  }

  lemma {:induction false} HeadEnds(url: string)
    ensures |Head(url)| < |url| ==> url[|Head(url)|] == '?'
    ensures |Head(url)| == |url| <==> '?' !in url
  {
    if url != "" && url[0] != '?' {
      HeadEnds(url[1..]);
      assert url == [url[0]] + url[1..];
    }
  }

  lemma CutAt(s: string, n: nat)
    requires n < |s|
    ensures s == s[..n] + [s[n]] + s[n + 1..]
  {
  }

  /** Every address is the address of its head and parameters. */
  lemma Reassembled(url: string)
    ensures Address(Head(url), Params(url)) == url
  {
    HeadEnds(url);
    var n := |Head(url)|;
    if n < |url| {
      CutAt(url, n);
      assert Join(Params(url), '&') == url[n + 1..] && Head(url) == url[..n];
    }
  }

  lemma Disassembled(head: string, params: seq<string>)
    requires '?' !in head && forall p :: p in params ==> '&' !in p
    ensures Head(Address(head, params)) == head && Params(Address(head, params)) == params
  {
    if params == [] {
      HeadOf(head, "");
      assert head + "" == head;
    } else {
      var tail := "?" + Join(params, '&');
      assert head + "?" + Join(params, '&') == head + tail;
      HeadOf(head, tail);
      assert (head + tail)[|head| + 1..] == Join(params, '&');
      SplitJoin(params, '&');
    }
  }

  // ----- The next address

  const PAGE := "page"

  predicate IsPage(param: string) {
    param == PAGE || PAGE + "=" <= param
  }

  function PageParam(page: string): string {
    PAGE + "=" + page
  }

  function Replaced(params: seq<string>, page: string): (r: seq<string>)
    ensures |r| == |params|
    ensures forall k :: 0 <= k < |r| ==> r[k] == if IsPage(params[k]) then PageParam(page) else params[k]
  {
    seq(|params|, k requires 0 <= k < |params| => if IsPage(params[k]) then PageParam(page) else params[k])
  }

  function Turned(params: seq<string>, page: string): seq<string> {
    if exists p :: p in params && IsPage(p) then Replaced(params, page) else params + [PageParam(page)]
  }

  function NextPage(url: string, page: string): string {
    if page == "" || page == "0" then "" else Address(Head(url), Turned(Params(url), page))
  }

  function Others(params: seq<string>): seq<string> {
    Filter(params, p => !IsPage(p))
  }

  lemma {:induction false} OthersReplaced(params: seq<string>, page: string)
    ensures Others(Replaced(params, page)) == Others(params)
  {
    if params != [] {
      var front := params[..|params| - 1];
      OthersReplaced(front, page);
      assert Replaced(params, page)[..|params| - 1] == Replaced(front, page);
    }
  }

  lemma OthersTurned(params: seq<string>, page: string)
    ensures Others(Turned(params, page)) == Others(params)
    ensures forall p :: p in Turned(params, page) && IsPage(p) ==> p == PageParam(page)
    ensures PageParam(page) in Turned(params, page)
  {
    if p :| p in params && IsPage(p) {
      OthersReplaced(params, page);
      var k :| 0 <= k < |params| && params[k] == p;
      assert Replaced(params, page)[k] == PageParam(page);
    } else {
      FilterPush(params, PageParam(page), (p: string) => !IsPage(p));
      assert Others(params) + [] == Others(params);
    }
  }

  lemma NoAmpersand(params: seq<string>, page: string)
    requires '&' !in page && forall p :: p in params ==> '&' !in p
    ensures forall p :: p in Turned(params, page) ==> '&' !in p
  {
    assert '&' !in PageParam(page);
  }

  /** Every page parameter carries the token and every other parameter is where and what it was; without
      a page parameter one is put behind the others. */
  ghost predicate PageTurned(params: seq<string>, next: seq<string>, page: string) {
    && (forall k :: 0 <= k < |params| ==>
          k < |next| && next[k] == if params[k] == PAGE || PAGE + "=" <= params[k] then PAGE + "=" + page else params[k])
    && (if exists p :: p in params && (p == PAGE || PAGE + "=" <= p) then |next| == |params|
        else |next| == |params| + 1 && next[|params|] == PAGE + "=" + page)
  }

  /** For every address and every page token: the text before the query stays, all other parameters
      keep their value and place, and the page parameters, of which there is one at least, all carry
      the token. */
  lemma NextPageLaws(url: string, page: string)
    requires page != "" && page != "0" && '&' !in page
    ensures var next := NextPage(url, page);
            && Head(next) == Head(url) && Others(Params(next)) == Others(Params(url))
            && PageParam(page) in Params(next)
            && (forall p :: p in Params(next) && IsPage(p) ==> p == PageParam(page))
            && PageTurned(Params(url), Params(next), page)
  {
    NextPageParams(url, page);
    OthersTurned(Params(url), page);
    TurnedExactly(Params(url), page);
  }

  lemma NextPageParams(url: string, page: string)
    requires page != "" && page != "0" && '&' !in page
    ensures Head(NextPage(url, page)) == Head(url) && Params(NextPage(url, page)) == Turned(Params(url), page)
  {
    NoAmpersand(Params(url), page);
    Disassembled(Head(url), Turned(Params(url), page));
  }

  lemma TurnedExactly(params: seq<string>, page: string)
    ensures PageTurned(params, Turned(params, page), page)
  {
    assert forall p :: IsPage(p) <==> p == PAGE || PAGE + "=" <= p;
    assert PageParam(page) == PAGE + "=" + page;
  }

  lemma ReplacedTwice(params: seq<string>, a: string, b: string)
    ensures Replaced(Replaced(params, a), b) == Replaced(params, b)
  {
    assert IsPage(PageParam(a));
  }

  lemma ReplacedNone(params: seq<string>, b: string)
    requires forall p :: p in params ==> !IsPage(p)
    ensures Replaced(params, b) == params
  {
    assert forall k :: 0 <= k < |params| ==> params[k] in params;
  }

  lemma ReplacedLast(params: seq<string>, p: string, b: string)
    requires IsPage(p)
    ensures Replaced(params + [p], b) == Replaced(params, b) + [PageParam(b)]
  {
  }

  lemma TurnedTwice(params: seq<string>, a: string, b: string)
    ensures Turned(Turned(params, a), b) == Turned(params, b)
  {
    OthersTurned(params, a);
    assert IsPage(PageParam(a));
    if exists p :: p in params && IsPage(p) {
      ReplacedTwice(params, a, b);
    } else {
      ReplacedLast(params, PageParam(a), b);
      ReplacedNone(params, b);
    }
  }

  /** Only the last token counts. */
  lemma NextOfNext(url: string, a: string, b: string)
    requires a != "" && a != "0" && '&' !in a
    ensures NextPage(NextPage(url, a), b) == NextPage(url, b)
  {
    NoAmpersand(Params(url), a);
    Disassembled(Head(url), Turned(Params(url), a));
    TurnedTwice(Params(url), a, b);
  }

  lemma JoinPush(params: seq<string>, p: string)
    requires params != []
    ensures Join(params + [p], '&') == Join(params, '&') + "&" + p
    decreases |params|
  {
    if |params| > 1 {
      JoinPush(params[1..], p);
      assert (params + [p])[1..] == params[1..] + [p];
    } else {
      assert (params + [p])[1..] == [p];
    }
  }

  // ----- The client

  method HasPageParam(params: seq<string>) returns (found: bool)
    ensures found <==> exists p :: p in params && IsPage(p)
  {
    for i := 0 to |params|
      invariant forall k :: 0 <= k < i ==> !IsPage(params[k])
    {
      if IsPage(params[i]) {
        assert params[i] in params;
        return true;
      }
    }
    found := false;
  }

  method ReplacePage(before: seq<string>, page: string) returns (params: seq<string>)
    ensures params == Replaced(before, page)
  {
    params := before;
    for i := 0 to |params|
      invariant |params| == |before|
      invariant forall k :: 0 <= k < i ==> params[k] == Replaced(before, page)[k]
      invariant forall k :: i <= k < |params| ==> params[k] == before[k]
    {
      if IsPage(params[i]) {
        params := params[i := PageParam(page)];
      }
    }
  }

  lemma QueryIndex(raw: string)
    ensures IndexOf(raw, ['?']) == if '?' in raw then |Head(raw)| else -1
  {
    HeadEnds(raw);
    forall j | 0 <= j < |raw|
      ensures OccursAt(raw, ['?'], j) <==> raw[j] == '?'
    {
      assert raw[j..j + 1] == [raw[j]];
    }
    var n := |Head(raw)|;
    if n < |raw| {
      forall j | 0 <= j < n
        ensures raw[j] != '?'
      {
        assert raw[j] == Head(raw)[j];
      }
      IndexOfFirst(raw, ['?'], n);
    }
  }

  lemma Appended(raw: string, page: string)
    ensures Address(Head(raw), Params(raw) + [page]) == raw + (if '?' in raw then "&" else "?") + page
  {
    Reassembled(raw);
    HeadEnds(raw);
    if '?' in raw {
      JoinPush(Params(raw), page);
      Regroup(Head(raw) + "?", Join(Params(raw), '&') + "&", page);
      Regroup(Head(raw) + "?", Join(Params(raw), '&'), "&");
    } else {
      assert Params(raw) + [page] == [page];
    }
  }

  lemma QueryParts(raw: string)
    ensures var q := IndexOf(raw, ['?']);
            if q >= 0 then '?' in raw && Head(raw) == raw[..q] && Params(raw) == Split(raw[q + 1..], '&')
            else '?' !in raw && Params(raw) == []
  {
    HeadEnds(raw);
    QueryIndex(raw);
  }

  lemma PageReplaced(raw: string, nextPage: string)
    requires nextPage != "" && nextPage != "0" && Params(raw) != [] && exists p :: p in Params(raw) && IsPage(p)
    ensures NextPage(raw, nextPage) == Head(raw) + "?" + Join(Replaced(Params(raw), nextPage), '&')
  {
  }

  lemma PageAdded(raw: string, nextPage: string)
    requires nextPage != "" && nextPage != "0" && !exists p :: p in Params(raw) && IsPage(p)
    ensures NextPage(raw, nextPage) == raw + (if '?' in raw then "&" else "?") + PageParam(nextPage)
  {
    Appended(raw, PageParam(nextPage));
  }

  method NextPageURL(raw: string, nextPage: string) returns (url: string)
    ensures url == NextPage(raw, nextPage)
  {
    if nextPage == "" || nextPage == "0" {
      return "";
    }
    QueryParts(raw);
    var q := IndexOf(raw, ['?']);
    if q >= 0 {
      var hasPageParam := HasPageParam(Split(raw[q + 1..], '&'));
      if hasPageParam {
        var params := ReplacePage(Split(raw[q + 1..], '&'), nextPage);
        PageReplaced(raw, nextPage);
        url := raw[..q] + "?" + Join(params, '&');
      } else {
        PageAdded(raw, nextPage);
        url := raw + "&" + PageParam(nextPage);
      }
    } else {
      PageAdded(raw, nextPage);
      url := raw + "?" + PageParam(nextPage);
    }
  }

  /** One request of the loop. */
  function Fetch(server: string -> Reply, url: string): Fetched {
    match server(url)
    case NoReply => Failed
    case Reply(status, body, header) =>
      if status < 200 || status >= 300 then Failed else Fetched(body, NextPage(url, header))
  }

  function Fetches(server: string -> Reply): string -> Fetched {
    url => Fetch(server, url)
  }

  /** Without a number, or with 0, there is no next page; else it is the same address with the page turned. */
  ghost predicate NextAddress(url: string, header: string, next: string) {
    && (header == "" || header == "0" ==> next == "")
    && (header != "" && header != "0" && '&' !in header ==>
          Head(next) == Head(url) && PageTurned(Params(url), Params(next), header))
  }

  lemma NextIsAddress(url: string, header: string)
    ensures NextAddress(url, header, NextPage(url, header))
  {
    if header != "" && header != "0" && '&' !in header {
      NextPageLaws(url, header);
    }
  }

  /** Every page that is collected came with a good status, and is the body of the reply to its request,
      in the order of the requests; one bad status or lost reply on the way and nothing is given. */
  lemma BodiesAreReplies(server: string -> Reply, url: string, n: nat)
    requires Ends(Fetches(server), url, n)
    ensures var visits, walk := Visits(Fetches(server), url, n), Walk(Fetches(server), url, n);
            && (walk.Some? <==> forall u :: u in visits ==> server(u).Reply? && 200 <= server(u).status < 300)
            && (walk.Some? ==> |walk.value| == |visits|
                               && forall k :: 0 <= k < |visits| ==>
                                    server(visits[k]).Reply? && walk.value[k] == server(visits[k]).body)
  {
    WalkBodies(Fetches(server), url, n);
  }

  method Request(server: string -> Reply, url: string) returns (fetched: Fetched)
    ensures fetched.Fetched? <==> server(url).Reply? && 200 <= server(url).status < 300
    ensures fetched.Fetched? ==> fetched.body == server(url).body && NextAddress(url, server(url).header, fetched.next)
    ensures fetched == Fetches(server)(url)
  {
    var reply := server(url);
    if reply.NoReply? || reply.status < 200 || reply.status >= 300 {
      return Failed;
    }
    var next := NextPageURL(url, reply.header);
    NextIsAddress(url, reply.header);
    fetched := Fetched(reply.body, next);
  }
}
