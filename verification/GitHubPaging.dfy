/** GitHub pagination: the next page is the link of the Link header (section 3 of RFC 8288) whose
    relation is "next", found with a regular expression. */
module GitHubPaging {
  import opened Paging
  import opened Seqs

  // ----- The regular expression

  predicate IsSpace(c: char) {
    c == ' ' || c == '\t' || c == '\n' || c == '\r' || c == (12 as char)
  }

  const REL := ['r', 'e', 'l', '=', '"']
  const NEXT := ['n', 'e', 'x', 't', '"']

  function SkipSpaces(s: string): string {
    if s != "" && IsSpace(s[0]) then SkipSpaces(s[1..]) else s
  }

  /** The text up to the first '>'. */
  function UntilAngle(s: string): (uri: string)
    ensures uri <= s && '>' !in uri
    ensures |uri| < |s| ==> s[|uri|] == '>'
  {
    if s == "" || s[0] == '>' then ""
    else
      var rest := UntilAngle(s[1..]);
      assert s == [s[0]] + s[1..];
      [s[0]] + rest
  }

  /** The text after a link's address: a semicolon, spaces, and the relation "next". */
  predicate Follows(s: string) {
    s != "" && s[0] == ';' && REL + NEXT <= SkipSpaces(s[1..])
  }

  /** A match that begins with the text. */
  function MatchHere(s: string): Option<string> {
    if s == "" || s[0] != '<' then None
    else
      var uri := UntilAngle(s[1..]);
      if uri != "" && |uri| + 1 < |s| && Follows(s[|uri| + 2..]) then Some(uri) else None
  }

  /** The leftmost match. */
  function FirstMatch(s: string): string {
    if s == "" then ""
    else
      match MatchHere(s)
      case Some(uri) => uri
      case None => FirstMatch(s[1..])
  }

  /** What the expression describes, in one piece. */
  ghost predicate Matches(s: string, uri: string, spaces: string) {
    && uri != "" && '>' !in uri && (forall c :: c in spaces ==> IsSpace(c))
    && "<" + uri + ">;" + spaces + REL + NEXT <= s
  }

  lemma {:induction false} SpacesSkipped(spaces: string, s: string)
    requires (forall c :: c in spaces ==> IsSpace(c)) && (s == "" || !IsSpace(s[0]))
    ensures SkipSpaces(spaces + s) == s
  {
    if spaces == "" {
      assert spaces + s == s;
    } else {
      assert (spaces + s)[1..] == spaces[1..] + s;
      SpacesSkipped(spaces[1..], s);
    }
  }

  lemma {:induction false} SkipsSpaces(s: string) returns (spaces: string)
    ensures s == spaces + SkipSpaces(s) && forall c :: c in spaces ==> IsSpace(c)
  {
    if s != "" && IsSpace(s[0]) {
      var rest := SkipsSpaces(s[1..]);
      spaces := [s[0]] + rest;
      assert s == [s[0]] + s[1..];
      Regroup([s[0]], rest, SkipSpaces(s[1..]));
    } else {
      spaces := "";
    }
  }

  lemma {:induction false} AngleFound(uri: string, tail: string)
    requires '>' !in uri && tail != "" && tail[0] == '>'
    ensures UntilAngle(uri + tail) == uri
  {
    if uri == "" {
      assert uri + tail == tail;
    } else {
      assert (uri + tail)[1..] == uri[1..] + tail;
      AngleFound(uri[1..], tail);
    }
  }

  lemma Pieces(uri: string, tail: string)
    requires tail != ""
    ensures var s := "<" + uri + tail;
            s[0] == '<' && s[1..] == uri + tail && s[|uri| + 1] == tail[0] && s[|uri| + 2..] == tail[1..]
  {
    var s := "<" + uri + tail;
    assert s[1..] == uri + tail;
    assert s[|uri| + 2..] == tail[1..];
  }

  lemma MatchOf(uri: string, tail: string)
    requires uri != "" && '>' !in uri && tail != "" && tail[0] == '>'
    ensures MatchHere("<" + uri + tail) == if Follows(tail[1..]) then Some(uri) else None
  {
    Pieces(uri, tail);
    AngleFound(uri, tail);
  }

  lemma FollowsSpaces(spaces: string, rest: string)
    requires (forall c :: c in spaces ==> IsSpace(c)) && rest != "" && !IsSpace(rest[0])
    ensures Follows(";" + spaces + rest) <==> REL + NEXT <= rest
  {
    assert (";" + spaces + rest)[1..] == spaces + rest;
    SpacesSkipped(spaces, rest);
  }

  /** The deterministic matcher finds exactly what the expression describes. */
  lemma MatchExactly(s: string, uri: string)
    ensures MatchHere(s) == Some(uri) <==> exists spaces :: Matches(s, uri, spaces)
  {
    if spaces :| Matches(s, uri, spaces) {
      var pattern := "<" + uri + ">;" + spaces + REL + NEXT;
      var more := s[|pattern|..];
      var rest := REL + NEXT + more;
      assert s == pattern + more;
      assert s == "<" + uri + (">" + (";" + spaces + rest));
      assert (">" + (";" + spaces + rest))[1..] == ";" + spaces + rest;
      MatchOf(uri, ">" + (";" + spaces + rest));
      FollowsSpaces(spaces, rest);
    }
    if MatchHere(s) == Some(uri) {
      var tail := s[|uri| + 2..];
      var spaces := SkipsSpaces(tail[1..]);
      MatchShape(s, uri, tail, spaces);
    }
  }

  lemma LinkHead(s: string, uri: string)
    requires MatchHere(s) == Some(uri)
    ensures |uri| + 2 <= |s| && s == "<" + uri + ">" + s[|uri| + 2..] && Follows(s[|uri| + 2..])
    ensures uri != "" && '>' !in uri
  {
    assert uri == s[1..][..|uri|] == s[1..|uri| + 1];
    assert s[|uri| + 1] == '>';
    assert s == [s[0]] + s[1..|uri| + 1] + [s[|uri| + 1]] + s[|uri| + 2..];
  }

  lemma LinkTail(tail: string, spaces: string, rest: string)
    requires tail != "" && tail[0] == ';' && REL + NEXT <= rest && tail[1..] == spaces + rest
    ensures ";" + spaces + REL + NEXT <= tail
  {
    assert tail == ";" + spaces + rest;
    PrefixUnder(";" + spaces, REL + NEXT, rest);
    assert ";" + spaces + (REL + NEXT) == ";" + spaces + REL + NEXT;
  }

  lemma PrefixUnder(a: string, b: string, c: string)
    ensures b <= c <==> a + b <= a + c
  {
    assert (a + c)[|a|..] == c;
    if a + b <= a + c {
      assert b == (a + b)[|a|..];
    }
  }

  lemma WholeMatch(s: string, uri: string, tail: string, spaces: string)
    requires s == "<" + uri + ">" + tail && ";" + spaces + REL + NEXT <= tail
    ensures "<" + uri + ">;" + spaces + REL + NEXT <= s
  {
    PrefixUnder("<" + uri + ">", ";" + spaces + REL + NEXT, tail);
    assert "<" + uri + ">" + (";" + spaces + REL + NEXT) == "<" + uri + ">;" + spaces + REL + NEXT;
  }

  lemma MatchShape(s: string, uri: string, tail: string, spaces: string)
    requires MatchHere(s) == Some(uri) && |uri| + 2 <= |s| && tail == s[|uri| + 2..] && Follows(tail)
    requires tail[1..] == spaces + SkipSpaces(tail[1..]) && forall c :: c in spaces ==> IsSpace(c)
    ensures Matches(s, uri, spaces)
  {
    LinkHead(s, uri);
    LinkTail(tail, spaces, SkipSpaces(tail[1..]));
    WholeMatch(s, uri, tail, spaces);
  }

  /** The match found is the leftmost one, and none is found only when there is none. */
  lemma {:induction false} Leftmost(s: string)
    ensures FirstMatch(s) == "" <==> forall i :: 0 <= i <= |s| ==> MatchHere(s[i..]).None?
    ensures FirstMatch(s) != "" ==> exists i :: 0 <= i <= |s| && MatchHere(s[i..]) == Some(FirstMatch(s))
                                                && forall j :: 0 <= j < i ==> MatchHere(s[j..]).None?
  {
    assert s[0..] == s;
    if s != "" && MatchHere(s).None? {
      Leftmost(s[1..]);
      assert forall i :: 1 <= i <= |s| ==> s[1..][i - 1..] == s[i..];
      if FirstMatch(s) == "" {
        forall i | 0 <= i <= |s|
          ensures MatchHere(s[i..]).None?
        {
          assert i > 0 ==> s[1..][i - 1..] == s[i..];
        }
      } else {
        var i :| && 0 <= i <= |s| - 1 && MatchHere(s[1..][i..]) == Some(FirstMatch(s))
                 && forall j :: 0 <= j < i ==> MatchHere(s[1..][j..]).None?;
        assert s[1..][i..] == s[i + 1..];
        forall j | 0 <= j < i + 1
          ensures MatchHere(s[j..]).None?
        {
          assert j > 0 ==> s[1..][j - 1..] == s[j..];
        }
      }
    }
  }

  // ----- A Link header

  datatype Link = Link(uri: string, rel: string)

  function PrintLink(l: Link): string {
    "<" + l.uri + ">; " + REL + l.rel + "\""
  }

  /** Links are separated by a comma and a space. */
  function Print(links: seq<Link>): string {
    if links == [] then "" else PrintLink(links[0]) + if |links| == 1 then "" else ", " + Print(links[1..])
  }

  /** Addresses without angle brackets, relations without quotes or brackets. */
  predicate Simple(l: Link) {
    l.uri != "" && '<' !in l.uri && '>' !in l.uri && '<' !in l.rel && '"' !in l.rel
  }

  function NextOf(links: seq<Link>): string {
    if links == [] then "" else if links[0].rel == "next" then links[0].uri else NextOf(links[1..])
  }

  lemma {:induction false} NoAngleSkipped(a: string, b: string)
    requires '<' !in a
    ensures FirstMatch(a + b) == FirstMatch(b)
  {
    if a == "" {
      assert a + b == b;
    } else {
      assert (a + b)[1..] == a[1..] + b;
      NoAngleSkipped(a[1..], b);
    }
  }

  lemma NextRelation(rel: string, more: string)
    requires '"' !in rel
    ensures NEXT <= rel + "\"" + more <==> rel == "next"
  {
    var s := rel + "\"" + more;
    assert s[|rel|] == '"' && forall k :: 0 <= k < |rel| ==> s[k] == rel[k];
    if NEXT <= s {
      assert s[4] == NEXT[4] && s[0] == NEXT[0] && s[1] == NEXT[1] && s[2] == NEXT[2] && s[3] == NEXT[3];
    }
  }

  lemma LinkPieces(l: Link, more: string)
    ensures PrintLink(l) + more == "<" + l.uri + (">" + (";" + " " + (REL + (l.rel + "\"" + more))))
  {
  }

  lemma LinkMatched(uri: string, rest: string)
    requires uri != "" && '>' !in uri && rest != "" && !IsSpace(rest[0])
    ensures MatchHere("<" + uri + (">" + (";" + " " + rest))) == if REL + NEXT <= rest then Some(uri) else None
  {
    assert (">" + (";" + " " + rest))[1..] == ";" + " " + rest;
    MatchOf(uri, ">" + (";" + " " + rest));
    FollowsSpaces(" ", rest);
  }

  lemma OneLink(l: Link, more: string)
    requires Simple(l)
    ensures MatchHere(PrintLink(l) + more) == if l.rel == "next" then Some(l.uri) else None
  {
    LinkPieces(l, more);
    LinkMatched(l.uri, REL + (l.rel + "\"" + more));
    PrefixUnder(REL, NEXT, l.rel + "\"" + more);
    NextRelation(l.rel, more);
  }

  lemma LinkSkipped(l: Link, more: string)
    requires Simple(l) && l.rel != "next"
    ensures FirstMatch(PrintLink(l) + more) == FirstMatch(more)
  {
    OneLink(l, more);
    var inside := l.uri + ">; " + REL + l.rel + "\"";
    assert (PrintLink(l) + more)[1..] == inside + more;
    NoAngleSkipped(inside, more);
  }

  /** For every list of links, printed as a Link header: the address of the first link whose relation
      is "next" comes back, and the empty string if there is none. */
  lemma {:induction false} ParsedIsNext(links: seq<Link>)
    requires forall l :: l in links ==> Simple(l)
    ensures FirstMatch(Print(links)) == NextOf(links)
  {
    if links != [] {
      var l := links[0];
      var more := if |links| == 1 then "" else ", " + Print(links[1..]);
      assert Print(links) == PrintLink(l) + more;
      OneLink(l, more);
      if l.rel != "next" {
        LinkSkipped(l, more);
        if |links| > 1 {
          NoAngleSkipped(", ", Print(links[1..]));
          ParsedIsNext(links[1..]);
        }
      }
    }
  }

  // ----- The client

  function ParseNextLink(header: string): string {
    if header == "" then "" else FirstMatch(header)
  }

  function Fetch(server: string -> Reply, url: string): Fetched {
    match server(url)
    case NoReply => Failed
    case Reply(status, body, header) =>
      if status < 200 || status >= 300 then Failed else Fetched(body, ParseNextLink(header))
  }

  function Fetches(server: string -> Reply): string -> Fetched {
    url => Fetch(server, url)
  }

  /** The expression describes no text at the front of `s`. */
  ghost predicate NoMatch(s: string) {
    forall uri, spaces :: !Matches(s, uri, spaces)
  }

  /** The first link the expression describes in the header begins at `i` and has this address. */
  ghost predicate FirstLinkAt(header: string, next: string, i: nat) {
    && i <= |header| && (exists spaces :: Matches(header[i..], next, spaces))
    && forall j :: 0 <= j < i ==> NoMatch(header[j..])
  }

  /** The address of the first link the expression describes anywhere in the header, "" exactly when
      it describes none. */
  ghost predicate NextLink(header: string, next: string) {
    && (next == "" <==> forall i :: 0 <= i <= |header| ==> NoMatch(header[i..]))
    && (next != "" ==> exists i: nat :: FirstLinkAt(header, next, i))
  }

  lemma MatchNone(s: string)
    ensures MatchHere(s).None? <==> NoMatch(s)
  {
    if uri, spaces :| Matches(s, uri, spaces) {
      MatchExactly(s, uri);
    }
    if MatchHere(s).Some? {
      MatchExactly(s, MatchHere(s).value);
    }
  }

  lemma FoundFirst(header: string, next: string, i: nat)
    requires i <= |header| && MatchHere(header[i..]) == Some(next)
    requires forall j :: 0 <= j < i ==> MatchHere(header[j..]).None?
    ensures FirstLinkAt(header, next, i)
  {
    MatchExactly(header[i..], next);
    forall j | 0 <= j < i
      ensures NoMatch(header[j..])
    {
      MatchNone(header[j..]);
    }
  }

  lemma ParsedIsNextLink(header: string)
    ensures NextLink(header, ParseNextLink(header))
  {
    var next := FirstMatch(header);
    Leftmost(header);
    forall i | 0 <= i <= |header|
      ensures MatchHere(header[i..]).None? <==> NoMatch(header[i..])
    {
      MatchNone(header[i..]);
    }
    if next != "" {
      var i :| && 0 <= i <= |header| && MatchHere(header[i..]) == Some(next)
               && forall j :: 0 <= j < i ==> MatchHere(header[j..]).None?;
      FoundFirst(header, next, i);
    }
  }

  method Request(server: string -> Reply, url: string) returns (fetched: Fetched)
    ensures fetched.Fetched? <==> server(url).Reply? && 200 <= server(url).status < 300
    ensures fetched.Fetched? ==> fetched.body == server(url).body && NextLink(server(url).header, fetched.next)
    ensures fetched == Fetches(server)(url)
  {
    var reply := server(url);
    if reply.NoReply? || reply.status < 200 || reply.status >= 300 {
      return Failed;
    }
    fetched := Fetched(reply.body, ParseNextLink(reply.header));
    ParsedIsNextLink(reply.header);
  }

  /** Every page that is collected came with a good status, and is the body of the reply to its request,
      in the order of the requests; one bad status or lost reply on the way and nothing is given. */
  lemma BodiesAreReplies(server: string -> Reply, url: string, n: nat)
    requires Ends(Fetches(server), url, n)
    ensures var visits, walk := Visits(Fetches(server), url, n), Walk(Fetches(server), url, n);
            && (walk.Some? <==> forall u :: u in visits ==> server(u).Reply? && 200 <= server(u).status < 300)
            && (walk.Some? ==> |walk.value| == |visits|
                               && forall k :: 0 <= k < |visits| ==>
                                    server(visits[k]).Reply? && walk.value[k] == server(visits[k]).body)
  {
    WalkBodies(Fetches(server), url, n);
  }

  datatype Page = Page(url: string, body: string, links: seq<Link>)

  /** The server has these pages, and the "next" links of each lead to the one after it. */
  ghost predicate Linked(server: string -> Reply, pages: seq<Page>) {
    forall k :: 0 <= k < |pages| ==> HasPage(server, pages[k]) && NextOf(pages[k].links) == Address(pages, k + 1)
  }

  function Address(pages: seq<Page>, k: nat): string {
    if k < |pages| then pages[k].url else ""
  }

  ghost predicate HasPage(server: string -> Reply, p: Page) {
    && p.url != "" && (forall l :: l in p.links ==> Simple(l))
    && server(p.url).Reply? && 200 <= server(p.url).status < 300
    && server(p.url).body == p.body && server(p.url).header == Print(p.links)
  }

  lemma PageFetched(server: string -> Reply, p: Page)
    requires HasPage(server, p)
    ensures Fetches(server)(p.url) == Fetched(p.body, NextOf(p.links))
  {
    ParsedIsNext(p.links);
  }

  function URLs(pages: seq<Page>): (r: seq<string>)
    ensures |r| == |pages| && forall k :: 0 <= k < |r| ==> r[k] == pages[k].url
  {
    seq(|pages|, k requires 0 <= k < |pages| => pages[k].url)
  }

  function Bodies(pages: seq<Page>): (r: seq<string>)
    ensures |r| == |pages| && forall k :: 0 <= k < |r| ==> r[k] == pages[k].body
  {
    seq(|pages|, k requires 0 <= k < |pages| => pages[k].body)
  }

  lemma LinksChained(server: string -> Reply, pages: seq<Page>)
    requires Linked(server, pages)
    ensures Chain(Fetches(server), URLs(pages), Bodies(pages))
  {
    forall k | 0 <= k < |pages|
      ensures URLs(pages)[k] != "" && Fetches(server)(URLs(pages)[k]) == Fetched(Bodies(pages)[k], After(URLs(pages), k))
    {
      PageFetched(server, pages[k]);
    }
  }

  /** Any finite chain of linked pages is collected exactly: every page, in order, asked for once. */
  lemma LinksWalked(server: string -> Reply, pages: seq<Page>)
    requires pages != [] && Linked(server, pages)
    ensures Ends(Fetches(server), pages[0].url, |pages|)
    ensures Walk(Fetches(server), pages[0].url, |pages|) == Some(Bodies(pages))
    ensures Visits(Fetches(server), pages[0].url, |pages|) == URLs(pages) && NoRepeats(URLs(pages))
  {
    LinksChained(server, pages);
    ChainWalked(Fetches(server), URLs(pages), Bodies(pages));
    NeverTwice(Fetches(server), pages[0].url, |pages|);
  }
}
