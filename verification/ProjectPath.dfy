/** `extractProjectPath`: from the path of a GitLab web URL back to the project it belongs to. */
module ProjectPath {
  import opened Seqs

  const SEPARATOR := "/-/"

  /** The project named by a URL path; an empty path has no first character to drop. */
  function ProjectOf(path: string): string
    requires path != ""
  {
    var k := IndexOf(path[1..], SEPARATOR);
    if k > 0 then path[1..][..k] else ""
  }

  /** A web URL as `url.Parse` sees it. */
  datatype WebURL = Unparsable | Parsed(path: string)

  /** What the function returns; Go panics on `path[1:]` when the path is empty: that is `None`. */
  function Project(url: WebURL): Option<string> {
    match url
    case Unparsable => Some("")
    case Parsed(path) => if path == "" then None else Some(ProjectOf(path))
  }

  method ExtractProjectPath(webURL: WebURL) returns (project: Option<string>)
    ensures project == Project(webURL)
  {
    if webURL.Unparsable? {
      return Some("");
    }
    if webURL.path == "" {
      return None;
    }
    var path := webURL.path[1..];
    var idx := 0;
    for i := 0 to |path|
      invariant idx == 0
      invariant forall j :: 0 <= j < i ==> !OccursAt(path, SEPARATOR, j)
    {
      if i + 3 <= |path| && path[i..i + 3] == "/-/" {
        idx := i;
        IndexOfFirst(path, SEPARATOR, i);
        break;
      }
    }
    if idx > 0 {
      return Some(path[..idx]);
    }
    return Some("");
  }

  lemma SeparatorChars(s: string, k: nat)
    ensures OccursAt(s, SEPARATOR, k) <==> k + 3 <= |s| && s[k] == '/' && s[k + 1] == '-' && s[k + 2] == '/'
  {
    if k + 3 <= |s| {
      assert s[k..k + 3] == [s[k], s[k + 1], s[k + 2]];
    }
  }

  predicate EndsInOverlap(p: string) {
    2 <= |p| && p[|p| - 2] == '/' && p[|p| - 1] == '-'
  }

  predicate Recoverable(p: string) {
    p != "" && IndexOf(p, SEPARATOR) == -1 && !EndsInOverlap(p)
  }

  /** A project path comes back from a web URL built on it exactly when it neither contains the
      separator nor ends in its first two characters, where the two would overlap. */
  lemma RecoversExactly(p: string, rest: string)
    requires p != ""
    ensures ProjectOf("/" + p + SEPARATOR + rest) == p <==> Recoverable(p)
  {
    var path := p + SEPARATOR + rest;
    assert ("/" + p + SEPARATOR + rest)[1..] == path;
    if Recoverable(p) {
      FirstBehind(p, rest);
    } else {
      FirstInside(p, rest);
    }
  }

  lemma FirstBehind(p: string, rest: string)
    requires IndexOf(p, SEPARATOR) == -1 && !EndsInOverlap(p)
    ensures IndexOf(p + SEPARATOR + rest, SEPARATOR) == |p|
  {
    var path := p + SEPARATOR + rest;
    SeparatorChars(path, |p|);
    forall j | 0 <= j < |p|
      ensures !OccursAt(path, SEPARATOR, j)
    {
      SeparatorChars(path, j);
      SeparatorChars(p, j);
      assert !OccursAt(p, SEPARATOR, j);
    }
    IndexOfFirst(path, SEPARATOR, |p|);
  }

  lemma FirstInside(p: string, rest: string)
    requires IndexOf(p, SEPARATOR) != -1 || EndsInOverlap(p)
    ensures IndexOf(p + SEPARATOR + rest, SEPARATOR) < |p|
  {
    var path := p + SEPARATOR + rest;
    var j := if IndexOf(p, SEPARATOR) != -1 then IndexOf(p, SEPARATOR) else |p| - 2;
    SeparatorChars(p, j);
    SeparatorChars(path, j);
    assert OccursAt(path, SEPARATOR, j);
  }

  ghost predicate LaterSeparator(path: string)
    requires path != ""
  {
    exists k :: 0 < k && OccursAt(path[1..], SEPARATOR, k)
  }

  /** The result is empty when no separator stands at a positive index, but not only then: the
      scan also gives up on a separator at index 0, whatever follows it. */
  lemma EmptyExactly(path: string)
    requires path != ""
    ensures ProjectOf(path) == "" <==> !LaterSeparator(path) || OccursAt(path[1..], SEPARATOR, 0)
  {
    var k := IndexOf(path[1..], SEPARATOR);
    if k > 0 {
      assert OccursAt(path[1..], SEPARATOR, k);
      assert |ProjectOf(path)| == k;
    } else if k == 0 {
      assert OccursAt(path[1..], SEPARATOR, 0);
    }
  }

  lemma EmptyDespiteSeparator()
    ensures var path := "//-/a/-/b"; LaterSeparator(path) && ProjectOf(path) == ""
  {
    var path := "//-/a/-/b";
    assert path[1..] == "/-/a/-/b";
    assert path[1..][0..3] == "/-/" && path[1..][4..7] == "/-/";
    assert OccursAt(path[1..], SEPARATOR, 4) && OccursAt(path[1..], SEPARATOR, 0);
  }
}
