/** Servers that number their pages and read the number from the address, in whatever way they do:
    what the GitLab loop collects from them. */
module NumberedPages {
  import opened GitLabPaging
  import opened Paging
  import opened Seqs

  // ----- Page numbers as text

  function Digits(n: nat): (s: string)
    ensures s != "" && forall c :: c in s ==> '0' <= c <= '9'
  {
    var last := ['0' + (n % 10) as char];
    if n < 10 then last else Digits(n / 10) + last
  }

  function Number(s: string): Option<nat> {
    if s == "" then None
    else
      var c := s[|s| - 1];
      if c < '0' || c > '9' then None
      else if |s| == 1 then Some((c - '0') as nat)
      else
        match Number(s[..|s| - 1])
        case None => None
        case Some(n) => Some(n * 10 + (c - '0') as nat)
  }

  lemma {:induction false} NumberOfDigits(n: nat)
    ensures Number(Digits(n)) == Some(n) && (n > 0 ==> Digits(n) != "0")
  {
    if n >= 10 {
      NumberOfDigits(n / 10);
      assert Digits(n)[..|Digits(n)| - 1] == Digits(n / 10);
    }
  }

  /** The parameter for page `k`. */
  function Numbered(k: nat): string {
    PageParam(Digits(k))
  }

  // ----- What such a server answers to the requests of the loop

  /** The header of page `k` of `n`: the number of the next page, and behind the last page nothing or 0. */
  predicate NextHeader(header: string, k: nat, n: nat) {
    if k < n then header == Digits(k + 1) else header == "" || header == "0"
  }

  /** The reply is page `k` of these pages. */
  predicate Serving(reply: Reply, bodies: seq<string>, k: nat) {
    && 1 <= k <= |bodies| && reply.Reply? && 200 <= reply.status < 300
    && reply.body == bodies[k - 1] && NextHeader(reply.header, k, |bodies|)
  }

  function Turn(): (string, nat) -> string {
    (url: string, k: nat) => NextPage(url, Digits(k))
  }

  /** The address as given, then the same address with its page turned to each later one. */
  function PageURLs(turn: (string, nat) -> string, url: string, k: nat, n: nat): (urls: seq<string>)
    requires k <= n
    ensures |urls| == n - k + 1
  {
    seq(n - k + 1, i requires 0 <= i < n - k + 1 => if i == 0 then url else turn(url, k + i))
  }

  ghost predicate Answer(fetch: string -> Fetched, turn: (string, nat) -> string, bodies: seq<string>, u: string, k: nat) {
    1 <= k <= |bodies| && fetch(u) == Fetched(bodies[k - 1], if k < |bodies| then turn(u, k + 1) else "")
  }

  lemma FetchedAnswer(server: string -> Reply, u: string)
    requires server(u).Reply? && 200 <= server(u).status < 300
    ensures Fetches(server)(u) == Fetched(server(u).body, NextPage(u, server(u).header))
  {
  }

  lemma HeaderTurns(u: string, header: string, k: nat, n: nat)
    requires NextHeader(header, k, n)
    ensures NextPage(u, header) == if k < n then Turn()(u, k + 1) else ""
  {
    if k < n {
      assert Turn()(u, k + 1) == NextPage(u, Digits(k + 1));
    }
  }

  lemma OneAnswer(server: string -> Reply, bodies: seq<string>, u: string, k: nat)
    requires Serving(server(u), bodies, k)
    ensures Answer(Fetches(server), Turn(), bodies, u, k)
  {
    FetchedAnswer(server, u);
    HeaderTurns(u, server(u).header, k, |bodies|);
  }

  lemma TurnTwice(url: string, a: nat, b: nat)
    requires a > 0
    ensures Turn()(Turn()(url, a), b) == Turn()(url, b) && Turn()(url, a) != ""
  {
    NumberOfDigits(a);
    NextOfNext(url, Digits(a), Digits(b));
    NextPageLaws(url, Digits(a));
    assert Params("") == [];
  }

  lemma PageLink(fetch: string -> Fetched, turn: (string, nat) -> string, url: string, k: nat, bodies: seq<string>, i: nat)
    requires 1 <= k <= k + i <= |bodies| && (i > 0 ==> turn(turn(url, k + i), k + i + 1) == turn(url, k + i + 1))
    requires Answer(fetch, turn, bodies, PageURLs(turn, url, k, |bodies|)[i], k + i)
    ensures var urls := PageURLs(turn, url, k, |bodies|);
            fetch(urls[i]) == Fetched(bodies[k - 1..][i], After(urls, i))
  {
  }

  /** The server answers the address with page `k` and the address turned to page `j` with page `j`. */
  ghost predicate ServesFrom(server: string -> Reply, url: string, k: nat, bodies: seq<string>) {
    && Serving(server(url), bodies, k)
    && forall j :: k < j <= |bodies| ==> Serving(server(Turn()(url, j)), bodies, j)
  }

  lemma PagesChained(server: string -> Reply, url: string, k: nat, bodies: seq<string>)
    requires ServesFrom(server, url, k, bodies) && url != ""
    ensures Chain(Fetches(server), PageURLs(Turn(), url, k, |bodies|), bodies[k - 1..])
  {
    var urls := PageURLs(Turn(), url, k, |bodies|);
    forall i | 0 <= i < |urls|
      ensures urls[i] != "" && Fetches(server)(urls[i]) == Fetched(bodies[k - 1..][i], After(urls, i))
    {
      if i > 0 {
        TurnTwice(url, k + i, k + i + 1);
      }
      OneAnswer(server, bodies, urls[i], k + i);
      PageLink(Fetches(server), Turn(), url, k, bodies, i);
    }
  }

  /** Nothing more is asked of the server than right answers to the requests made: then the loop ends
      after exactly the pages from page `k` on, gives all their bodies in order, and asks for each of
      them once, by the original address with nothing but the page parameter changed. */
  lemma PagesFrom(server: string -> Reply, url: string, k: nat, bodies: seq<string>)
    requires ServesFrom(server, url, k, bodies) && url != ""
    ensures var urls := PageURLs(Turn(), url, k, |bodies|);
            && Ends(Fetches(server), url, |urls|)
            && Walk(Fetches(server), url, |urls|) == Some(bodies[k - 1..])
            && Visits(Fetches(server), url, |urls|) == urls && NoRepeats(urls)
  {
    var urls := PageURLs(Turn(), url, k, |bodies|);
    PagesChained(server, url, k, bodies);
    ChainWalked(Fetches(server), urls, bodies[k - 1..]);
    NeverTwice(Fetches(server), url, |urls|);
  }

  // ----- Servers that read the page from the address

  /** Same text before the query, same other parameters. */
  predicate SameQuery(a: string, b: string) {
    Head(a) == Head(b) && Others(Params(a)) == Others(Params(b))
  }

  /** The address asks for page `k` and nothing else: whichever page parameter is read, it says `k`. */
  ghost predicate AsksFor(url: string, k: nat) {
    Numbered(k) in Params(url) && forall p :: p in Params(url) && IsPage(p) ==> p == Numbered(k)
  }

  /** The server may read addresses as it likes, if it understands those that can be read in one way only. */
  ghost predicate ReadsPage(pageOf: string -> nat, start: string) {
    forall url, k: nat :: k > 0 && SameQuery(url, start) && AsksFor(url, k) ==> pageOf(url) == k
  }

  /** The server gives the pages as it reads their numbers. */
  ghost predicate Serves(server: string -> Reply, pageOf: string -> nat, start: string, bodies: seq<string>) {
    forall url :: SameQuery(url, start) && 1 <= pageOf(url) <= |bodies| ==> Serving(server(url), bodies, pageOf(url))
  }

  lemma TurnAsks(url: string, k: nat)
    requires k > 0
    ensures SameQuery(Turn()(url, k), url) && AsksFor(Turn()(url, k), k)
  {
    NumberOfDigits(k);
    NextPageLaws(url, Digits(k));
  }

  lemma ReadServesFrom(server: string -> Reply, pageOf: string -> nat, url: string, bodies: seq<string>)
    requires ReadsPage(pageOf, url) && Serves(server, pageOf, url, bodies) && 1 <= pageOf(url) <= |bodies|
    ensures ServesFrom(server, url, pageOf(url), bodies)
  {
    forall j | pageOf(url) < j <= |bodies|
      ensures Serving(server(Turn()(url, j)), bodies, j)
    {
      TurnAsks(url, j);
      assert pageOf(Turn()(url, j)) == j;
    }
  }

  /** Against any server with pages 1 to n that reads the page from the address: all bodies from the
      asked page on, in order, each asked for once. */
  lemma PagesInOrder(server: string -> Reply, pageOf: string -> nat, url: string, bodies: seq<string>)
    requires ReadsPage(pageOf, url) && Serves(server, pageOf, url, bodies) && url != "" && 1 <= pageOf(url) <= |bodies|
    ensures var urls := PageURLs(Turn(), url, pageOf(url), |bodies|);
            && Ends(Fetches(server), url, |urls|)
            && Walk(Fetches(server), url, |urls|) == Some(bodies[pageOf(url) - 1..])
            && Visits(Fetches(server), url, |urls|) == urls && NoRepeats(urls)
  {
    ReadServesFrom(server, pageOf, url, bodies);
    PagesFrom(server, url, pageOf(url), bodies);
  }

  // ----- Ways of reading: the first or the last page parameter, as it stands or decoded

  /** The first, or the last, of the parameters a server takes for the page. */
  function Pick(params: seq<string>, taken: string -> bool, last: bool): Option<string> {
    if params == [] then None
    else
      var n := |params| - 1;
      if last then if taken(params[n]) then Some(params[n]) else Pick(params[..n], taken, last)
      else if taken(params[0]) then Some(params[0])
      else Pick(params[1..], taken, last)
  }

  function PageRead(taken: string -> bool, value: string -> nat, last: bool, url: string): nat {
    match Pick(Params(url), taken, last)
    case None => 1
    case Some(p) => value(p)
  }

  /** How a server reads that takes some parameters for the page and goes by the first or the last of
      them; without one it is page 1. */
  function Reader(taken: string -> bool, value: string -> nat, last: bool): string -> nat {
    url => PageRead(taken, value, last, url)
  }

  ghost predicate Understands(taken: string -> bool, value: string -> nat) {
    forall k: nat :: k > 0 ==> taken(Numbered(k)) && value(Numbered(k)) == k
  }

  lemma {:induction false} PickOnly(params: seq<string>, taken: string -> bool, last: bool, p: string)
    requires p in params && taken(p) && forall q :: q in params && taken(q) ==> q == p
    ensures Pick(params, taken, last) == Some(p)
    decreases |params|
  {
    var n := |params| - 1;
    assert params == [params[0]] + params[1..] && params == params[..n] + [params[n]];
    if last {
      if !taken(params[n]) {
        PickOnly(params[..n], taken, last, p);
      }
    } else if !taken(params[0]) {
      PickOnly(params[1..], taken, last, p);
    }
  }

  /** What is picked stays picked when a parameter is put at the end that is looked at last. */
  lemma {:induction false} PickStays(params: seq<string>, taken: string -> bool, last: bool, x: string)
    requires exists p :: p in params && taken(p)
    ensures Pick(params, taken, last).Some?
    ensures Pick(if last then [x] + params else params + [x], taken, last) == Pick(params, taken, last)
    decreases |params|
  {
    if last {
      var n := |params| - 1;
      assert params == params[..n] + [params[n]];
      assert ([x] + params)[..n + 1] == [x] + params[..n];
      if !taken(params[n]) {
        PickStays(params[..n], taken, last, x);
      }
    } else {
      assert params == [params[0]] + params[1..];
      assert (params + [x])[1..] == params[1..] + [x];
      if !taken(params[0]) {
        PickStays(params[1..], taken, last, x);
      }
    }
  }

  lemma ReaderReads(taken: string -> bool, value: string -> nat, last: bool, start: string)
    requires Understands(taken, value) && forall p :: p in Others(Params(start)) ==> !taken(p)
    ensures ReadsPage(Reader(taken, value, last), start)
  {
    forall url, k: nat | k > 0 && SameQuery(url, start) && AsksFor(url, k)
      ensures Reader(taken, value, last)(url) == k
    {
      FilterMembers(Params(url), (p: string) => !IsPage(p));
      forall p | p in Params(url) && taken(p)
        ensures p == Numbered(k)
      {
        assert !IsPage(p) ==> p in Others(Params(url));
      }
      PickOnly(Params(url), taken, last, Numbered(k));
    }
  }

  lemma OthersOnly(params: seq<string>)
    ensures forall p :: p in Others(params) ==> p in params && !IsPage(p)
    ensures Others(Others(params)) == Others(params)
  {
    FilterMembers(params, (p: string) => !IsPage(p));
    FilterAll(Others(params), (p: string) => !IsPage(p));
  }

  lemma OthersAround(params: seq<string>, page: string, front: bool)
    requires IsPage(page)
    ensures Others(if front then [page] + params else params + [page]) == Others(params)
  {
    if front {
      FilterAppend([page], params, (p: string) => !IsPage(p));
      assert [page][..0] == [];
      assert [] + Others(params) == Others(params);
    } else {
      FilterPush(params, page, (p: string) => !IsPage(p));
      assert Others(params) + [] == Others(params);
    }
  }

  /** An address of the family that asks for page `k` and is misread: another parameter comes first. */
  lemma Misread(taken: string -> bool, value: string -> nat, last: bool, start: string) returns (url: string, k: nat)
    requires exists p :: p in Others(Params(start)) && taken(p)
    ensures k > 0 && SameQuery(url, start) && AsksFor(url, k) && Reader(taken, value, last)(url) != k
  {
    var others := Others(Params(start));
    OthersOnly(Params(start));
    PickStays(others, taken, last, "");
    k := value(Pick(others, taken, last).value) + 1;
    PickStays(others, taken, last, Numbered(k));
    var params := if last then [Numbered(k)] + others else others + [Numbered(k)];
    assert '&' !in Numbered(k);
    url := Address(Head(start), params);
    Disassembled(Head(start), params);
    OthersAround(others, Numbered(k), last);
  }

  /** Such a server understands the addresses of the loop if and only if it takes no other parameter
      of the address for the page. */
  lemma ReaderExactly(taken: string -> bool, value: string -> nat, last: bool, start: string)
    requires Understands(taken, value)
    ensures ReadsPage(Reader(taken, value, last), start) <==> forall p :: p in Others(Params(start)) ==> !taken(p)
  {
    if forall p :: p in Others(Params(start)) ==> !taken(p) {
      ReaderReads(taken, value, last, start);
    } else {
      var url, k := Misread(taken, value, last, start);
    }
  }

  // ----- Parameters as they stand

  function Plainly(): string -> bool {
    p => IsPage(p)
  }

  /** The page a parameter asks for; the first page if it does not name one. */
  function Asked(): string -> nat {
    p => if PAGE + "=" <= p then NumberOr(p[|PAGE| + 1..], 1) else 1
  }

  function NumberOr(s: string, default: nat): nat {
    match Number(s)
    case Some(n) => n
    case None => default
  }

  /** A server that goes by the first page parameter, or by the last, understands every address. */
  lemma PlainReader(last: bool, start: string)
    ensures ReadsPage(Reader(Plainly(), Asked(), last), start)
  {
    forall k: nat | k > 0
      ensures Plainly()(Numbered(k)) && Asked()(Numbered(k)) == k
    {
      NumberOfDigits(k);
      assert Numbered(k)[|PAGE| + 1..] == Digits(k);
    }
    OthersOnly(Params(start));
    ReaderReads(Plainly(), Asked(), last, start);
  }

  // ----- Parameters decoded, as `url.Query().Get("page")` has them (the address without a fragment)

  function HexValue(c: char): int {
    if '0' <= c <= '9' then (c - '0') as int
    else if 'a' <= c <= 'f' then (c - 'a') as int + 10
    else if 'A' <= c <= 'F' then (c - 'A') as int + 10
    else -1
  }

  function Unescape(s: string): Option<string> {
    if s == "" then Some("")
    else if s[0] == '%' then
      if |s| < 3 || HexValue(s[1]) == -1 || HexValue(s[2]) == -1 then None
      else
        match Unescape(s[3..])
        case None => None
        case Some(rest) => Some([(HexValue(s[1]) * 16 + HexValue(s[2])) as char] + rest)
    else
      match Unescape(s[1..])
      case None => None
      case Some(rest) => Some([if s[0] == '+' then ' ' else s[0]] + rest)
  }

  function NameOf(param: string): string {
    if param == "" || param[0] == '=' then "" else [param[0]] + NameOf(param[1..])
  }

  function ValueOf(param: string): string {
    if param == "" then "" else if param[0] == '=' then param[1..] else ValueOf(param[1..])
  }

  /** A parameter with a semicolon or a broken escape is dropped, any other taken by its decoded name. */
  function Decodedly(): string -> bool {
    p => ';' !in p && Unescape(NameOf(p)) == Some(PAGE) && Unescape(ValueOf(p)).Some?
  }

  /** No value is page 1; what is no number is no page. */
  function DecodedPage(): string -> nat {
    p =>
      match Unescape(ValueOf(p))
      case None => 0
      case Some(v) => if v == "" then 1 else NumberOr(v, 0)
  }

  lemma {:induction false} NothingEscaped(s: string)
    requires '%' !in s && '+' !in s
    ensures Unescape(s) == Some(s)
  {
    if s != "" {
      NothingEscaped(s[1..]);
      assert s == [s[0]] + s[1..];
    }
  }

  lemma {:induction false} NameAndValue(name: string, value: string)
    requires '=' !in name
    ensures NameOf(name + "=" + value) == name && ValueOf(name + "=" + value) == value
  {
    var p := name + "=" + value;
    if name == "" {
      assert p[1..] == value;
    } else {
      assert p[1..] == name[1..] + "=" + value;
      NameAndValue(name[1..], value);
    }
  }

  lemma NumberedParts(k: nat)
    ensures NameOf(Numbered(k)) == PAGE && ValueOf(Numbered(k)) == Digits(k) && ';' !in Numbered(k)
  {
    NumberOfDigits(k);
    NameAndValue(PAGE, Digits(k));
  }

  lemma NumberedPlainly(k: nat)
    ensures Unescape(PAGE) == Some(PAGE) && Unescape(Digits(k)) == Some(Digits(k))
  {
    NumberOfDigits(k);
    NothingEscaped(PAGE);
    NothingEscaped(Digits(k));
  }

  lemma DecodedNumbered(k: nat)
    ensures Decodedly()(Numbered(k)) && (k > 0 ==> DecodedPage()(Numbered(k)) == k)
  {
    NumberOfDigits(k);
    NumberedParts(k);
    NumberedPlainly(k);
  }

  /** A server that decodes its query understands an address if and only if none of the other
      parameters decodes to a page parameter. */
  lemma DecodingReaderExactly(last: bool, start: string)
    ensures ReadsPage(Reader(Decodedly(), DecodedPage(), last), start)
       <==> forall p :: p in Others(Params(start)) ==> !Decodedly()(p)
  {
    forall k: nat | k > 0
      ensures Decodedly()(Numbered(k)) && DecodedPage()(Numbered(k)) == k
    {
      DecodedNumbered(k);
    }
    ReaderExactly(Decodedly(), DecodedPage(), last, start);
  }
}
