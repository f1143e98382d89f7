/** What the GitHub and GitLab fetchers share: calls made one after the other that give up at the
    first error, and the conversion of what a server lists into activities. */
module Calls {
  import opened Seqs
  import opened Domain
  import opened Gather
  import opened ProjectPath

  /** An issue, commit or merge request as a server lists it. */
  datatype Item = Item(web: WebURL, title: string, url: string, createdAt: int, summary: string)

  function ToActivity(kind: ActivityType, item: Item): Activity {
    Activity(kind, item.title, item.url, item.createdAt, item.summary)
  }

  /** A pull or merge request whose reviews or notes are read one by one. */
  datatype Change = Change(number: nat, title: string, url: string)

  datatype Remark = Remark(author: string, system: bool, at: int, url: string)

  datatype Query = Query(username: string, since: int, until: int, types: set<ActivityType>)

  // ----- Calls in sequence

  function Prepend(a: seq<Activity>, o: Outcome): Outcome {
    if o.None? then None else Some(a + o.value)
  }

  /** Two calls, the second only if the first succeeds. */
  function Then(first: Outcome, second: Outcome): Outcome {
    if first.None? then None else Prepend(first.value, second)
  }

  /** One call per key, giving up at the first error. */
  function Collect<K>(keys: seq<K>, call: K -> Outcome): Outcome {
    if keys == [] then Some([]) else Then(call(keys[0]), Collect(keys[1..], call))
  }

  lemma PrependNothing(o: Outcome)
    ensures Prepend([], o) == o
  {
    if o.Some? {
      assert [] + o.value == o.value;
    }
  }

  lemma PrependTwice(a: seq<Activity>, b: seq<Activity>, o: Outcome)
    ensures Prepend(a, Then(Some(b), o)) == Prepend(a + b, o)
  {
    if o.Some? {
      assert a + (b + o.value) == a + b + o.value;
    }
  }

  function Brought(o: Outcome): seq<Activity> {
    if o.Some? then o.value else []
  }

  /** Everything the calls bring, key by key, failures left out. */
  function Concat<K>(keys: seq<K>, call: K -> Outcome): seq<Activity> {
    if keys == [] then [] else Brought(call(keys[0])) + Concat(keys[1..], call)
  }

  lemma {:induction false} CollectIsConcat<K>(keys: seq<K>, call: K -> Outcome)
    requires Collect(keys, call).Some?
    ensures Collect(keys, call).value == Concat(keys, call)
  {
    if keys != [] {
      CollectIsConcat(keys[1..], call);
    }
  }

  /** Calls in sequence fail if and only if one of them does. */
  lemma {:induction false} CollectFails<K(!new)>(keys: seq<K>, call: K -> Outcome)
    ensures Collect(keys, call).None? <==> exists k :: k in keys && call(k).None?
  {
    if keys != [] {
      CollectFails(keys[1..], call);
      assert forall k :: k in keys <==> k == keys[0] || k in keys[1..];
      assert keys[0] in keys;
    }
  }

  /** What they bring is what each brings, in order. */
  lemma {:induction false} CollectParts<K>(keys: seq<K>, call: K -> Outcome) returns (parts: seq<seq<Activity>>)
    requires Collect(keys, call).Some?
    ensures |parts| == |keys| && Collect(keys, call).value == Flatten(parts)
    ensures forall i :: 0 <= i < |keys| ==> call(keys[i]).Some? && parts[i] == call(keys[i]).value
  {
    if keys == [] {
      parts := [];
    } else {
      var rest := CollectParts(keys[1..], call);
      parts := [call(keys[0]).value] + rest;
      assert parts[1..] == rest;
    }
  }

  lemma {:induction false} ConcatAppend<K>(a: seq<K>, b: seq<K>, call: K -> Outcome)
    ensures Concat(a + b, call) == Concat(a, call) + Concat(b, call)
  {
    if a == [] {
      assert a + b == b;
    } else {
      ConcatAppend(a[1..], b, call);
      assert (a + b)[1..] == a[1..] + b;
      Regroup(Brought(call(a[0])), Concat(a[1..], call), Concat(b, call));
    }
  }

  lemma {:induction false} ConcatSame<K>(keys: seq<K>, f: K -> Outcome, g: K -> Outcome)
    requires forall k :: k in keys ==> Brought(f(k)) == Brought(g(k))
    ensures Concat(keys, f) == Concat(keys, g)
  {
    if keys != [] {
      ConcatSame(keys[1..], f, g);
    }
  }

  lemma ConcatAround<K>(b: seq<K>, k: nat, call: K -> Outcome)
    requires k < |b|
    ensures Concat(b, call) == Concat(b[..k], call) + (Brought(call(b[k])) + Concat(b[k + 1..], call))
    ensures Concat(b[..k] + b[k + 1..], call) == Concat(b[..k], call) + Concat(b[k + 1..], call)
  {
    ConcatAppend(b[..k], b[k + 1..], call);
    assert b == b[..k] + b[k..] && b[k..][1..] == b[k + 1..];
    ConcatAppend(b[..k], b[k..], call);
  }

  /** The order in which Go happens to walk a set of repository names does not matter. */
  lemma {:induction false} ConcatPermutation<K>(a: seq<K>, b: seq<K>, call: K -> Outcome)
    requires multiset(a) == multiset(b)
    ensures multiset(Concat(a, call)) == multiset(Concat(b, call))
  {
    if a == [] {
      assert |multiset(b)| == |b|;
    } else {
      assert a[0] in multiset(b);
      var k :| 0 <= k < |b| && b[k] == a[0];
      SameRest(a, b, k);
      ConcatPermutation(a[1..], b[..k] + b[k + 1..], call);
      ConcatAround(b, k, call);
      ToTheFront(Concat(b[..k], call), Brought(call(a[0])), Concat(b[k + 1..], call), Concat(a[1..], call));
    }
  }

  lemma ToTheFront<T>(x: seq<T>, m: seq<T>, y: seq<T>, rest: seq<T>)
    requires multiset(rest) == multiset(x + y)
    ensures multiset(m + rest) == multiset(x + (m + y))
  {
  }

  // ----- What both platforms do with a server's lists

  function Converted(kind: ActivityType, items: seq<Item>): seq<Activity> {
    if items == [] then [] else [ToActivity(kind, items[0])] + Converted(kind, items[1..])
  }

  function Convert(kind: ActivityType, answer: Option<seq<Item>>): Outcome {
    if answer.None? then None else Some(Converted(kind, answer.value))
  }

  /** The user's own remarks in the period. Among GitLab's notes are some the system wrote; they do not
      count. */
  function Relevant(q: Query, r: Remark, notes: bool): bool {
    !(notes && r.system) && r.author == q.username && q.since <= r.at <= q.until
  }

  /** On GitHub the activity links to the review, on GitLab to the merge request. */
  function Review(change: Change, r: Remark, notes: bool): Activity {
    Activity(PullRequestReview, change.title, if notes then change.url else r.url, r.at, change.title)
  }

  function Reviews(q: Query, change: Change, remarks: seq<Remark>, notes: bool): seq<Activity> {
    if remarks == [] then []
    else
      var front, last := remarks[..|remarks| - 1], remarks[|remarks| - 1];
      Reviews(q, change, front, notes) + if Relevant(q, last, notes) then [Review(change, last, notes)] else []
  }

  method ConvertItems(kind: ActivityType, items: seq<Item>) returns (activities: seq<Activity>)
    ensures activities == Converted(kind, items) && AsListed(kind, items, activities)
  {
    activities := [];
    for i := 0 to |items|
      invariant activities + Converted(kind, items[i..]) == Converted(kind, items)
    {
      assert items[i..][1..] == items[i + 1..];
      Regroup(activities, [ToActivity(kind, items[i])], Converted(kind, items[i + 1..]));
      activities := activities + [ToActivity(kind, items[i])];
    }
    assert activities + [] == activities;
    ConvertedAsListed(kind, items);
  }

  method CollectReviews(q: Query, change: Change, remarks: seq<Remark>, notes: bool) returns (activities: seq<Activity>)
    ensures activities == Reviews(q, change, remarks, notes) && OwnReviews(q, change, remarks, notes, activities)
  {
    activities := [];
    for i := 0 to |remarks|
      invariant activities == Reviews(q, change, remarks[..i], notes)
    {
      assert remarks[..i + 1][..i] == remarks[..i];
      if Relevant(q, remarks[i], notes) {
        activities := activities + [Review(change, remarks[i], notes)];
      }
    }
    assert remarks[..|remarks|] == remarks;
    ReviewsAreOwn(q, change, remarks, notes);
  }

  // ----- What the activities are, item by item

  /** One activity for each item, in order, of this type and with the item's own values. */
  ghost predicate AsListed(kind: ActivityType, items: seq<Item>, activities: seq<Activity>) {
    && |activities| == |items|
    && forall k :: 0 <= k < |items| ==>
         activities[k] == Activity(kind, items[k].title, items[k].url, items[k].createdAt, items[k].summary)
  }

  lemma {:induction false} ConvertedAsListed(kind: ActivityType, items: seq<Item>)
    ensures AsListed(kind, items, Converted(kind, items))
  {
    if items != [] {
      ConvertedAsListed(kind, items[1..]);
    }
  }

  /** The same where this type was asked for and the call succeeded, and otherwise nothing. */
  ghost predicate ListedIfAsked(kind: ActivityType, types: set<ActivityType>, answer: Option<seq<Item>>,
                                activities: seq<Activity>) {
    if kind in types && answer.Some? then AsListed(kind, answer.value, activities) else activities == []
  }

  /** Places in a list, in order. */
  ghost predicate Ascending(places: seq<nat>, length: nat) {
    && (forall i, j :: 0 <= i < j < |places| ==> places[i] < places[j])
    && forall i :: 0 <= i < |places| ==> places[i] < length
  }

  /** The activities are the remarks at these places: each one the user wrote within the period, once
      and in order, and no other. */
  ghost predicate OwnReviewsAt(q: Query, change: Change, remarks: seq<Remark>, notes: bool,
                               activities: seq<Activity>, places: seq<nat>) {
    && Ascending(places, |remarks|)
    && (forall i: nat :: i < |remarks| ==>
          (i in places <==> && remarks[i].author == q.username && q.since <= remarks[i].at && remarks[i].at <= q.until
                            && (notes ==> !remarks[i].system)))
    && |activities| == |places|
    && forall k :: 0 <= k < |places| ==>
         var r := remarks[places[k]];
         activities[k] == Activity(PullRequestReview, change.title, if notes then change.url else r.url, r.at, change.title)
  }

  ghost predicate OwnReviews(q: Query, change: Change, remarks: seq<Remark>, notes: bool, activities: seq<Activity>) {
    exists places :: OwnReviewsAt(q, change, remarks, notes, activities, places)
  }

  lemma {:induction false} ReviewsAreOwn(q: Query, change: Change, remarks: seq<Remark>, notes: bool)
    ensures OwnReviews(q, change, remarks, notes, Reviews(q, change, remarks, notes))
  {
    if remarks == [] {
      assert OwnReviewsAt(q, change, remarks, notes, [], []);
    } else {
      var n := |remarks| - 1;
      ReviewsAreOwn(q, change, remarks[..n], notes);
      var activities := Reviews(q, change, remarks[..n], notes);
      var places :| OwnReviewsAt(q, change, remarks[..n], notes, activities, places);
      NextRemark(q, change, remarks, notes, activities, places);
    }
  }

  lemma NextRemark(q: Query, change: Change, remarks: seq<Remark>, notes: bool, activities: seq<Activity>, places: seq<nat>)
    requires remarks != [] && OwnReviewsAt(q, change, remarks[..|remarks| - 1], notes, activities, places)
    ensures var last := remarks[|remarks| - 1];
            OwnReviews(q, change, remarks, notes,
                       activities + if Relevant(q, last, notes) then [Review(change, last, notes)] else [])
  {
    var n := |remarks| - 1;
    if Relevant(q, remarks[n], notes) {
      assert OwnReviewsAt(q, change, remarks, notes, activities + [Review(change, remarks[n], notes)], places + [n]);
    } else {
      assert n !in places;
      assert OwnReviewsAt(q, change, remarks, notes, activities, places);
      assert activities + [] == activities;
    }
  }

  // ----- Sums over repositories

  function Names(repos: seq<Repository>): seq<string> {
    if repos == [] then [] else [repos[0].fullName] + Names(repos[1..])
  }

  function NameSet(repos: seq<Repository>): set<string> {
    set repo | repo in repos :: repo.fullName
  }

  /** Within one platform the database keeps full names unique. */
  ghost predicate DistinctNames(repos: seq<Repository>) {
    forall i, j :: 0 <= i < j < |repos| ==> repos[i].fullName != repos[j].fullName
  }

  lemma NameSetFirst(repos: seq<Repository>)
    requires DistinctNames(repos) && repos != []
    ensures NameSet(repos) == {repos[0].fullName} + NameSet(repos[1..]) && repos[0].fullName !in NameSet(repos[1..])
  {
    assert repos == [repos[0]] + repos[1..];
  }

  lemma {:induction false} NamesOnce(repos: seq<Repository>)
    requires DistinctNames(repos)
    ensures multiset(Names(repos)) == multiset(NameSet(repos))
  {
    if repos != [] {
      var name, rest := repos[0].fullName, repos[1..];
      NamesOnce(rest);
      NameSetFirst(repos);
      assert Names(repos) == [name] + Names(rest);
    }
  }

  function ByName(call: string -> Outcome): Repository -> Outcome {
    (repo: Repository) => call(repo.fullName)
  }

  lemma {:induction false} ConcatNames(repos: seq<Repository>, call: string -> Outcome)
    ensures Concat(Names(repos), call) == Concat(repos, ByName(call))
  {
    if repos != [] {
      ConcatNames(repos[1..], call);
      assert Names(repos)[1..] == Names(repos[1..]);
    }
  }

  /** The part of a call that depends on whether its type was asked for. */
  function Asked<K>(wanted: bool, call: K -> Outcome): K -> Outcome {
    (key: K) => if wanted then call(key) else Some([])
  }

  lemma {:induction false} NotAsked<K>(keys: seq<K>, call: K -> Outcome)
    ensures Concat(keys, Asked(false, call)) == []
  {
    if keys != [] {
      NotAsked(keys[1..], call);
    }
  }

  lemma {:induction false} WasAsked<K>(keys: seq<K>, call: K -> Outcome)
    ensures Concat(keys, Asked(true, call)) == Concat(keys, call)
  {
    if keys != [] {
      WasAsked(keys[1..], call);
    }
  }

  /** Two calls for the same key, whether or not either failed. */
  function Both<K>(f: K -> Outcome, g: K -> Outcome): K -> Outcome {
    (key: K) => Some(Brought(f(key)) + Brought(g(key)))
  }

  lemma {:induction false} ConcatBoth<K>(keys: seq<K>, f: K -> Outcome, g: K -> Outcome)
    ensures multiset(Concat(keys, Both(f, g))) == multiset(Concat(keys, f)) + multiset(Concat(keys, g))
  {
    if keys != [] {
      ConcatBoth(keys[1..], f, g);
      FourParts(Brought(f(keys[0])), Brought(g(keys[0])),
                Concat(keys[1..], Both(f, g)), Concat(keys[1..], f), Concat(keys[1..], g));
    }
  }

  lemma FourParts<T>(a: seq<T>, b: seq<T>, rest: seq<T>, c: seq<T>, d: seq<T>)
    requires multiset(rest) == multiset(c) + multiset(d)
    ensures multiset(a + b + rest) == multiset(a + c) + multiset(b + d)
  {
  }
}
