/** The admin header's breadcrumb trail, built from the current path: one crumb per non-empty
    path segment except "auth" segments, each linking to the path up to and including its
    segment. */
module Header {
  import opened Strings

  // ----- path segments -----

  /** `s.split('/')`: the pieces between the slashes, so one more piece than slashes. */
  function Split(s: string): (r: seq<string>)
    ensures |r| >= 1
    ensures forall i :: 0 <= i < |r| ==> '/' !in r[i]
  {
    if s == [] then [""]
    else
      var rest := Split(s[1..]);
      if s[0] == '/' then [""] + rest else [[s[0]] + rest[0]] + rest[1..]
  }

  /** `filter(s => s)`: the non-empty pieces, in order. */
  function DropEmpty(pieces: seq<string>): (r: seq<string>)
    ensures forall i :: 0 <= i < |r| ==> r[i] != "" && r[i] in pieces
  {
    if pieces == [] then []
    else if pieces[0] == "" then DropEmpty(pieces[1..])
    else [pieces[0]] + DropEmpty(pieces[1..])
  }

  /** `path.split('/').filter(s => s)`. */
  function Segments(path: string): (r: seq<string>)
    ensures forall i :: 0 <= i < |r| ==> r[i] != "" && '/' !in r[i]
  {
    DropEmpty(Split(path))
  }

  // ----- labels -----

  /** The readable names of known segments, keyed in lower case. */
  const LabelMap: map<string, string> := map[
    "dashboard" := "Dashboard",
    "pages" := "Pages",
    "builder" := "Page Builder",
    "media" := "Media Library",
    "leads" := "Leads",
    "admin" := "Admin",
    "settings" := "Settings",
    "templates" := "Templates",
    "users" := "Users",
    "auth" := "Authentication",
    "profile" := "Profile"]

  /** `s.charAt(0).toUpperCase() + s.slice(1)`. */
  function Capitalized(s: string): (r: string)
    ensures |r| == |s|
    ensures s != "" ==> r[0] == UpperChar(s[0]) && r[1..] == s[1..]
  {
    if s == "" then "" else [UpperChar(s[0])] + s[1..]
  }

  /** The mapped name of a segment, looked up in lower case, or else the segment capitalised. */
  function Label(segment: string): string {
    var key := Lower(segment);
    if key in LabelMap then LabelMap[key] else Capitalized(segment)
  }

  /** A known segment reads as its mapped name; any other keeps its letters, with the first one
      upper-cased. */
  lemma LabelCases(segment: string)
    ensures Lower(segment) in LabelMap ==> Label(segment) == LabelMap[Lower(segment)]
    ensures Lower(segment) !in LabelMap ==>
              && |Label(segment)| == |segment|
              && (segment != "" ==> Label(segment)[0] == UpperChar(segment[0]) && Label(segment)[1..] == segment[1..])
  {
  }

  /** Known segments are looked up whatever their case: "Pages" and "PAGES" read alike. */
  lemma KnownLabelIgnoresCase(a: string, b: string)
    requires Lower(a) == Lower(b) && Lower(a) in LabelMap
    ensures Label(a) == Label(b)
  {
  }

  predicate IsAuth(segment: string) {
    Lower(segment) == "auth"
  }

  // ----- the trail -----

  datatype Crumb = Crumb(text: string, url: string)

  /** The link of the `n`-th segment: "/" before each of the first `n` segments, skipped ones
      included. */
  function UrlUpTo(segments: seq<string>, n: nat): (u: string)
    requires n <= |segments|
  {
    if n == 0 then "" else UrlUpTo(segments, n - 1) + "/" + segments[n - 1]
  }

  /** The crumbs of the first `n` segments. */
  function CrumbsUpTo(segments: seq<string>, n: nat): seq<Crumb>
    requires n <= |segments|
  {
    if n == 0 then []
    else
      var segment := segments[n - 1];
      CrumbsUpTo(segments, n - 1) + (if IsAuth(segment) then [] else [Crumb(Label(segment), UrlUpTo(segments, n))])
  }

  function Crumbs(path: string): seq<Crumb> {
    CrumbsUpTo(Segments(path), |Segments(path)|)
  }

  /** `generateBreadcrumbs(path)`. */
  method GenerateBreadcrumbs(path: string) returns (breadcrumbs: seq<Crumb>)
    ensures breadcrumbs == Crumbs(path)
  {
    var segments := Segments(path);
    breadcrumbs := [];
    var currentUrl := "";
    var index := 0;
    while index < |segments|
      invariant 0 <= index <= |segments|
      invariant currentUrl == UrlUpTo(segments, index)
      invariant breadcrumbs == CrumbsUpTo(segments, index)
    {
      var segment := segments[index];
      CrumbsStep(segments, index);
      currentUrl := currentUrl + "/" + segment;
      var text := Label(segment);
      if !IsAuth(segment) {
        breadcrumbs := breadcrumbs + [Crumb(text, currentUrl)];
      }
      index := index + 1;
    }
    assert Crumbs(path) == CrumbsUpTo(segments, |segments|);
  }

  /** One more segment extends the link by "/" and the segment, and adds its crumb unless it is
      an "auth" segment. */
  lemma CrumbsStep(segments: seq<string>, n: nat)
    requires n < |segments|
    ensures UrlUpTo(segments, n + 1) == UrlUpTo(segments, n) + "/" + segments[n]
    ensures IsAuth(segments[n]) ==> CrumbsUpTo(segments, n + 1) == CrumbsUpTo(segments, n)
    ensures !IsAuth(segments[n]) ==>
              CrumbsUpTo(segments, n + 1) == CrumbsUpTo(segments, n) + [Crumb(Label(segments[n]), UrlUpTo(segments, n + 1))]
  {
  }

  // ----- what the trail promises -----

  /** The link of a segment is "/" followed by the segments up to it joined with "/". */
  lemma {:induction false} UrlIsJoin(segments: seq<string>, n: nat)
    requires 1 <= n <= |segments|
    ensures UrlUpTo(segments, n) == "/" + Join(segments[..n], "/")
  {
    if n == 1 {
      assert segments[..1] == [segments[0]];
    } else {
      UrlIsJoin(segments, n - 1);
      JoinAppend(segments[..n - 1], segments[n - 1]);
      assert segments[..n] == segments[..n - 1] + [segments[n - 1]];
    }
  }

  lemma {:induction false} JoinAppend(parts: seq<string>, last: string)
    requires parts != []
    ensures Join(parts + [last], "/") == Join(parts, "/") + "/" + last
  {
    if |parts| == 1 {
      assert (parts + [last])[1..] == [last];
    } else {
      assert (parts + [last])[1..] == parts[1..] + [last];
      JoinAppend(parts[1..], last);
    }
  }

  /** An earlier link is a proper prefix of a later one. */
  lemma {:induction false} UrlPrefix(segments: seq<string>, m: nat, n: nat)
    requires m < n <= |segments|
    ensures UrlUpTo(segments, m) < UrlUpTo(segments, n)
    decreases n
  {
    if m < n - 1 {
      UrlPrefix(segments, m, n - 1);
    }
  }

  /** Every link is non-empty and a prefix of `top`. */
  predicate LinksUnder(c: seq<Crumb>, top: string) {
    forall k :: 0 <= k < |c| ==> c[k].url <= top && |c[k].url| > 0
  }

  /** Each link is a proper prefix of the next one. */
  predicate LinksChained(c: seq<Crumb>) {
    forall k :: 0 <= k < |c| - 1 ==> c[k].url < c[k + 1].url
  }

  /** Each crumb links to a path that is a proper prefix of the next crumb's, and every link is
      a prefix of the path up to the last segment seen. */
  lemma {:induction false} CrumbsChain(segments: seq<string>, n: nat)
    requires n <= |segments|
    ensures LinksUnder(CrumbsUpTo(segments, n), UrlUpTo(segments, n))
    ensures LinksChained(CrumbsUpTo(segments, n))
  {
    if n > 0 {
      var segment := segments[n - 1];
      var url := UrlUpTo(segments, n);
      CrumbsChain(segments, n - 1);
      CrumbsStep(segments, n - 1);
      UrlPrefix(segments, n - 1, n);
      ChainStep(CrumbsUpTo(segments, n - 1), UrlUpTo(segments, n - 1), Crumb(Label(segment), url), !IsAuth(segment),
                CrumbsUpTo(segments, n));
    }
  }

  /** One more segment keeps the trail chained and under the longer path, whether or not it
      adds a crumb. */
  lemma ChainStep(prev: seq<Crumb>, top: string, x: Crumb, add: bool, c: seq<Crumb>)
    requires LinksUnder(prev, top) && LinksChained(prev) && top < x.url
    requires c == if add then prev + [x] else prev
    ensures LinksUnder(c, x.url) && LinksChained(c)
  {
    LinksUnderLonger(prev, top, x.url);
    if add {
      ChainedSnoc(prev, x);
      forall k | 0 <= k < |c| ensures c[k].url <= x.url && |c[k].url| > 0 {
        if k < |prev| {
          assert c[k] == prev[k];
        }
      }
    }
  }

  /** Links under a proper prefix of `top` are strictly shorter than `top`'s path. */
  lemma LinksUnderLonger(prev: seq<Crumb>, top: string, url: string)
    requires LinksUnder(prev, top) && top < url
    ensures LinksUnder(prev, url) && forall k :: 0 <= k < |prev| ==> prev[k].url < url
  {
    forall k | 0 <= k < |prev| ensures prev[k].url < url {
      PrefixThenProper(prev[k].url, top, url);
    }
  }

  lemma ChainedSnoc(prev: seq<Crumb>, x: Crumb)
    requires LinksChained(prev)
    requires forall k :: 0 <= k < |prev| ==> prev[k].url < x.url
    ensures LinksChained(prev + [x])
  {
    var c := prev + [x];
    forall k | 0 <= k < |c| - 1 ensures c[k].url < c[k + 1].url {
      assert c[k] == prev[k];
      if k + 1 < |prev| {
        assert c[k + 1] == prev[k + 1];
      }
    }
  }

  lemma PrefixThenProper(a: string, b: string, c: string)
    requires a <= b && b < c
    ensures a < c
  {
    assert |a| <= |b| < |c|;
    assert a == b[..|a|] && b == c[..|b|];
    assert a == c[..|a|];
  }

  /** The segments that get a crumb, in order. */
  function ShownSegments(segments: seq<string>): seq<string> {
    if segments == [] then []
    else
      var last := segments[|segments| - 1];
      ShownSegments(segments[..|segments| - 1]) + (if IsAuth(last) then [] else [last])
  }

  /** One crumb per segment that is not "auth", in path order, each showing its segment's label. */
  lemma {:induction false} CrumbsLabels(segments: seq<string>, n: nat)
    requires n <= |segments|
    ensures |CrumbsUpTo(segments, n)| == |ShownSegments(segments[..n])|
    ensures forall k :: 0 <= k < |CrumbsUpTo(segments, n)| ==>
              CrumbsUpTo(segments, n)[k].text == Label(ShownSegments(segments[..n])[k])
  {
    if n > 0 {
      CrumbsLabels(segments, n - 1);
      var c := CrumbsUpTo(segments, n);
      var prev := CrumbsUpTo(segments, n - 1);
      var x := segments[n - 1];
      assert segments[..n][..n - 1] == segments[..n - 1];
      var keptPrev := ShownSegments(segments[..n - 1]);
      if !IsAuth(x) {
        var kept := keptPrev + [x];
        assert ShownSegments(segments[..n]) == kept;
        assert c == prev + [Crumb(Label(x), UrlUpTo(segments, n))];
        forall k | 0 <= k < |c| ensures c[k].text == Label(kept[k]) {
          if k < |prev| {
            assert c[k] == prev[k] && kept[k] == keptPrev[k];
          }
        }
      } else {
        assert ShownSegments(segments[..n]) == keptPrev;
        assert c == prev;
      }
    }
  }

  /** A path without non-empty segments, such as "" or "/", gives no crumbs. */
  lemma EmptyPaths()
    ensures Crumbs("") == [] && Crumbs("/") == []
  {
    assert Split("") == [""];
    assert Split("/") == ["", ""];
  }

  lemma {:induction false} SplitNoSlash(s: string)
    requires '/' !in s
    ensures Split(s) == [s]
  {
    if s != [] {
      SplitNoSlash(s[1..]);
      assert [s[0]] + s[1..] == s;
    }
  }

  lemma {:induction false} SplitAtSlash(a: string, b: string)
    requires '/' !in a
    ensures Split(a + "/" + b) == [a] + Split(b)
  {
    if a == [] {
      assert a + "/" + b == ['/'] + b;
    } else {
      assert (a + "/" + b)[1..] == a[1..] + "/" + b;
      SplitAtSlash(a[1..], b);
      assert [a[0]] + a[1..] == a;
    }
  }

  lemma TwoSegments(a: string, b: string)
    requires a != "" && b != "" && '/' !in a && '/' !in b
    ensures Segments("/" + a + "/" + b) == [a, b]
  {
    SplitNoSlash(b);
    SplitAtSlash(a, b);
    SplitAtSlash("", a + "/" + b);
    assert "" + "/" + (a + "/" + b) == "/" + a + "/" + b;
    assert DropEmpty(["", a, b]) == [a, b] by {
      assert ["", a, b][1..] == [a, b];
      assert [a, b][1..] == [b];
      assert [b][1..] == [];
      assert DropEmpty([b]) == [b];
      assert DropEmpty([a, b]) == [a] + DropEmpty([b]);
    }
  }

  /** A path "/auth/<b>" gives one crumb, for `b`, whose link still includes the skipped
      segment. */
  lemma AuthSkippedButCounted(a: string, b: string)
    requires a != "" && b != "" && '/' !in a && '/' !in b
    requires IsAuth(a) && !IsAuth(b)
    ensures Crumbs("/" + a + "/" + b) == [Crumb(Label(b), "/" + a + "/" + b)]
  {
    var segments := [a, b];
    TwoSegments(a, b);
    assert CrumbsUpTo(segments, 1) == [];
    assert UrlUpTo(segments, 1) == "" + "/" + a;
    assert UrlUpTo(segments, 2) == "/" + a + "/" + b;
  }

  /** "/auth/login" is such a path: its single crumb reads "Login". */
  lemma LoginLabel()
    ensures IsAuth("auth") && !IsAuth("login") && Label("login") == "Login"
  {
    assert Lower("login") == "login";
    assert "login" != "auth";
    assert "login" !in LabelMap;
  }
}
