/** The page slug normaliser of the page service: lower-case the title, delete every character
    that is not an ASCII lower-case letter, a digit, white space or '-', turn each run of white
    space into one '-', squeeze each run of '-' into one, and trim '-' from both ends. */
module PageSlug {
  import opened Strings

  predicate IsHyphen(c: char) { c == '-' }

  /** The characters the second stage keeps (the complement of `[^a-z0-9\s-]`). */
  predicate IsKept(c: char) { IsLowerAscii(c) || IsDigit(c) || IsNetSpace(c) || c == '-' }

  predicate IsSlugChar(c: char) { IsLowerAscii(c) || IsDigit(c) || c == '-' }

  predicate IsSpaceOrHyphen(c: char) { IsNetSpace(c) || c == '-' }

  predicate IsAlnum(c: char) { IsUpperAscii(c) || IsLowerAscii(c) || IsDigit(c) }

  predicate NoDoubleHyphen(s: string) {
    forall i :: 0 <= i < |s| - 1 ==> !(s[i] == '-' && s[i + 1] == '-')
  }

  /** What the normaliser promises of its output: only a-z, 0-9 and '-', no "--", and no '-'
      at either end. */
  predicate IsSlug(s: string) {
    && (forall i :: 0 <= i < |s| ==> IsSlugChar(s[i]))
    && NoDoubleHyphen(s)
    && (s != [] ==> s[0] != '-' && s[|s| - 1] != '-')
  }

  // ----- the stages -----

  function RemoveDisallowed(s: string): (r: string)
    ensures forall i :: 0 <= i < |r| ==> IsKept(r[i])
  {
    if s == [] then []
    else if IsKept(s[0]) then [s[0]] + RemoveDisallowed(s[1..])
    else RemoveDisallowed(s[1..])
  }

  /** `s` without its leading run of characters satisfying `p`. */
  function DropRun(s: string, p: char -> bool): (r: string)
    ensures |r| <= |s|
    ensures r == [] || !p(r[0])
    ensures s != [] && p(s[0]) ==> |r| < |s|
  {
    if s != [] && p(s[0]) then DropRun(s[1..], p) else s
  }

  /** `Regex.Replace(s, "<class>+", "-")`: every maximal run of characters satisfying `p`
      becomes a single '-'. */
  function ReplaceRuns(s: string, p: char -> bool): (r: string)
    decreases |s|
  {
    if s == [] then []
    else if p(s[0]) then "-" + ReplaceRuns(DropRun(s, p), p)
    else [s[0]] + ReplaceRuns(s[1..], p)
  }

  function TrimStart(s: string): (r: string)
    ensures |r| <= |s|
    ensures r == [] || r[0] != '-'
  {
    if s != [] && s[0] == '-' then TrimStart(s[1..]) else s
  }

  function TrimEnd(s: string): (r: string)
    ensures |r| <= |s|
    ensures r == [] || r[|r| - 1] != '-'
  {
    if s != [] && s[|s| - 1] == '-' then TrimEnd(s[..|s| - 1]) else s
  }

  /** `Trim('-')`. */
  function Trim(s: string): (r: string)
    ensures r == [] || (r[0] != '-' && r[|r| - 1] != '-')
  {
    var t := TrimStart(s);
    var r := TrimEnd(t);
    TrimEndIsPrefix(t);
    assert r != [] ==> r[0] == t[0];
    r
  }

  function GenerateSlug(title: string): (slug: string)
  {
    Trim(ReplaceRuns(ReplaceRuns(RemoveDisallowed(Lower(title)), IsNetSpace), IsHyphen))
  }

  // ----- what each stage keeps of its input -----

  lemma {:induction false} DropRunIsSuffix(s: string, p: char -> bool)
    ensures DropRun(s, p) == s[|s| - |DropRun(s, p)|..]
    decreases |s|
  {
    if s != [] && p(s[0]) {
      DropRunIsSuffix(s[1..], p);
      assert s[1..][|s| - 1 - |DropRun(s, p)|..] == s[|s| - |DropRun(s, p)|..];
    }
  }

  lemma {:induction false} TrimStartIsSuffix(s: string)
    ensures TrimStart(s) == s[|s| - |TrimStart(s)|..]
    decreases |s|
  {
    if s != [] && s[0] == '-' {
      TrimStartIsSuffix(s[1..]);
      assert s[1..][|s| - 1 - |TrimStart(s)|..] == s[|s| - |TrimStart(s)|..];
    }
  }

  lemma {:induction false} TrimEndIsPrefix(s: string)
    ensures TrimEnd(s) == s[..|TrimEnd(s)|]
    decreases |s|
  {
    if s != [] && s[|s| - 1] == '-' {
      TrimEndIsPrefix(s[..|s| - 1]);
      assert s[..|s| - 1][..|TrimEnd(s)|] == s[..|TrimEnd(s)|];
    }
  }

  // ----- character-class lemmas -----

  lemma {:induction false} ReplaceRunsChars(s: string, p: char -> bool, q: char -> bool)
    requires forall i :: 0 <= i < |s| ==> q(s[i])
    ensures forall c :: c in ReplaceRuns(s, p) ==> c == '-' || (q(c) && !p(c))
    decreases |s|
  {
    if s != [] {
      if p(s[0]) {
        var d := DropRun(s, p);
        DropRunIsSuffix(s, p);
        assert forall i :: 0 <= i < |d| ==> d[i] == s[|s| - |d| + i];
        ReplaceRunsChars(d, p, q);
      } else {
        ReplaceRunsChars(s[1..], p, q);
      }
    }
  }

  /** A character outside the runs survives the replacement. */
  lemma {:induction false} ReplaceRunsKeeps(s: string, p: char -> bool, c: char)
    requires c in s && !p(c)
    ensures c in ReplaceRuns(s, p)
    decreases |s|
  {
    if s[0] != c {
      if p(s[0]) {
        var d := DropRun(s, p);
        DropRunIsSuffix(s, p);
        assert c in d by {
          var i :| 0 <= i < |s| && s[i] == c;
          assert i >= |s| - |d| by {
            if i < |s| - |d| {
              DropRunPrefix(s, p, i);
            }
          }
          assert d[i - (|s| - |d|)] == c;
        }
        ReplaceRunsKeeps(d, p, c);
      } else {
        ReplaceRunsKeeps(s[1..], p, c);
      }
    }
  }

  /** Every character that DropRun removes satisfies `p`. */
  lemma {:induction false} DropRunPrefix(s: string, p: char -> bool, i: int)
    requires 0 <= i < |s| - |DropRun(s, p)|
    ensures p(s[i])
    decreases |s|
  {
    if i > 0 {
      DropRunPrefix(s[1..], p, i - 1);
    }
  }

  /** The first character of a replacement: a run gives '-', anything else itself. */
  lemma ReplaceRunsHead(s: string, p: char -> bool)
    requires s != []
    ensures var r := ReplaceRuns(s, p);
            r != [] && r[0] == (if p(s[0]) then '-' else s[0])
  {
  }

  lemma {:induction false} ReplaceRunsNoDouble(s: string, p: char -> bool)
    requires p('-')
    ensures NoDoubleHyphen(ReplaceRuns(s, p))
    decreases |s|
  {
    if s != [] {
      var r := ReplaceRuns(s, p);
      if p(s[0]) {
        var d := DropRun(s, p);
        ReplaceRunsNoDouble(d, p);
        if d != [] {
          ReplaceRunsHead(d, p);
          assert r[1] != '-';
        }
      } else {
        ReplaceRunsNoDouble(s[1..], p);
        assert s[0] != '-';
      }
    }
  }

  // ----- the output is a slug -----

  lemma TrimIsSlug(s: string)
    requires forall i :: 0 <= i < |s| ==> IsSlugChar(s[i])
    requires NoDoubleHyphen(s)
    ensures IsSlug(Trim(s))
  {
    var a := TrimSlice(s);
    SliceKeeps(s, a, a + |Trim(s)|);
  }

  /** Trimming leaves a contiguous slice of the string; `a` is where it starts. */
  lemma TrimSlice(s: string) returns (a: nat)
    ensures a + |Trim(s)| <= |s| && Trim(s) == s[a..a + |Trim(s)|]
  {
    var t := TrimStart(s);
    var r := TrimEnd(t);
    a := |s| - |t|;
    TrimStartIsSuffix(s);
    TrimEndIsPrefix(t);
    assert t == s[a..];
    assert r == t[..|r|];
  }

  /** A slice of a string of slug characters without "--" is one too. */
  lemma SliceKeeps(s: string, a: nat, b: nat)
    requires a <= b <= |s|
    requires forall i :: 0 <= i < |s| ==> IsSlugChar(s[i])
    requires NoDoubleHyphen(s)
    ensures forall i :: 0 <= i < b - a ==> IsSlugChar(s[a..b][i])
    ensures NoDoubleHyphen(s[a..b])
  {
    var u := s[a..b];
    forall i | 0 <= i < |u| - 1 ensures !(u[i] == '-' && u[i + 1] == '-') {
      assert u[i] == s[a + i] && u[i + 1] == s[a + i + 1];
    }
  }

  lemma SlugShape(title: string)
    ensures IsSlug(GenerateSlug(title))
  {
    var b := RemoveDisallowed(Lower(title));
    var c := ReplaceRuns(b, IsNetSpace);
    ReplaceRunsChars(b, IsNetSpace, IsKept);
    assert forall i :: 0 <= i < |c| ==> c[i] in c;
    var d := ReplaceRuns(c, IsHyphen);
    ReplaceRunsChars(c, IsHyphen, IsSlugChar);
    ReplaceRunsNoDouble(c, IsHyphen);
    assert forall i :: 0 <= i < |d| ==> d[i] in d;
    TrimIsSlug(d);
  }

  // ----- idempotence -----

  lemma LowerFixed(s: string)
    requires forall i :: 0 <= i < |s| ==> !IsUpperAscii(s[i])
    ensures Lower(s) == s
  {
  }

  lemma {:induction false} RemoveDisallowedFixed(s: string)
    requires forall i :: 0 <= i < |s| ==> IsKept(s[i])
    ensures RemoveDisallowed(s) == s
  {
    if s != [] {
      RemoveDisallowedFixed(s[1..]);
    }
  }

  /** A string with no two neighbouring run characters, each of them '-', is left as it is. */
  lemma {:induction false} ReplaceRunsFixed(s: string, p: char -> bool)
    requires forall i :: 0 <= i < |s| ==> p(s[i]) ==> s[i] == '-'
    requires forall i :: 0 <= i < |s| - 1 ==> !(p(s[i]) && p(s[i + 1]))
    ensures ReplaceRuns(s, p) == s
    decreases |s|
  {
    if s != [] {
      ReplaceRunsFixed(s[1..], p);
      if p(s[0]) {
        assert DropRun(s, p) == s[1..];
      }
    }
  }

  lemma TrimFixed(s: string)
    requires IsSlug(s)
    ensures Trim(s) == s
  {
    assert TrimStart(s) == s;
  }

  lemma SlugFixed(s: string)
    requires IsSlug(s)
    ensures GenerateSlug(s) == s
  {
    LowerFixed(s);
    RemoveDisallowedFixed(s);
    ReplaceRunsFixed(s, IsNetSpace);
    ReplaceRunsFixed(s, IsHyphen);
  }

  /** Normalising a slug a second time changes nothing. */
  lemma SlugIdempotent(title: string)
    ensures GenerateSlug(GenerateSlug(title)) == GenerateSlug(title)
  {
    SlugShape(title);
    SlugFixed(GenerateSlug(title));
  }

  // ----- empty output -----

  lemma {:induction false} TrimAllHyphens(s: string)
    requires forall i :: 0 <= i < |s| ==> s[i] == '-'
    ensures Trim(s) == []
  {
    if s != [] {
      var u := s[1..];
      assert forall i :: 0 <= i < |u| ==> u[i] == s[i + 1];
      TrimAllHyphens(u);
      assert TrimStart(s) == TrimStart(u);
    }
  }

  lemma TrimKeeps(s: string, c: char)
    requires c in s && c != '-'
    ensures c in Trim(s)
  {
    var i :| 0 <= i < |s| && s[i] == c;
    var t := TrimStart(s);
    var k := |s| - |t|;
    assert i >= k by {
      if i < k {
        TrimStartPrefix(s, i);
      }
    }
    TrimStartIsSuffix(s);
    assert t[i - k] == c;
    var r := TrimEnd(t);
    TrimEndIsPrefix(t);
    assert i - k < |r| by {
      if i - k >= |r| {
        TrimEndSuffix(t, i - k);
      }
    }
    assert r[i - k] == c;
  }

  lemma {:induction false} TrimStartPrefix(s: string, i: int)
    requires 0 <= i < |s| - |TrimStart(s)|
    ensures s[i] == '-'
  {
    if i > 0 {
      TrimStartPrefix(s[1..], i - 1);
    }
  }

  lemma {:induction false} TrimEndSuffix(s: string, i: int)
    requires |TrimEnd(s)| <= i < |s|
    ensures s[i] == '-'
  {
    if i < |s| - 1 {
      TrimEndSuffix(s[..|s| - 1], i);
    }
  }

  lemma {:induction false} RemoveDisallowedKeeps(s: string, c: char)
    requires c in s && IsKept(c)
    ensures c in RemoveDisallowed(s)
  {
    if s[0] != c {
      RemoveDisallowedKeeps(s[1..], c);
    }
  }

  lemma {:induction false} RemoveDisallowedOnlyFrom(s: string)
    ensures forall c :: c in RemoveDisallowed(s) ==> c in s
  {
    if s != [] {
      RemoveDisallowedOnlyFrom(s[1..]);
    }
  }

  /** The slug is empty exactly when the title holds no ASCII letter or digit: titles made
      only of symbols, white space and hyphens (and the empty title) give "". */
  lemma SlugEmptyIff(title: string)
    ensures GenerateSlug(title) == [] <==> forall i :: 0 <= i < |title| ==> !IsAlnum(title[i])
  {
    if exists i :: 0 <= i < |title| && IsAlnum(title[i]) {
      var i :| 0 <= i < |title| && IsAlnum(title[i]);
      SlugKeepsAlnum(title, i);
    } else {
      SlugOfNoAlnum(title);
    }
  }

  lemma SlugKeepsAlnum(title: string, i: int)
    requires 0 <= i < |title| && IsAlnum(title[i])
    ensures GenerateSlug(title) != []
  {
    var a := Lower(title);
    var b := RemoveDisallowed(a);
    var c := ReplaceRuns(b, IsNetSpace);
    var d := ReplaceRuns(c, IsHyphen);
    var x := a[i];
    assert IsLowerAscii(x) || IsDigit(x);
    RemoveDisallowedKeeps(a, x);
    ReplaceRunsKeeps(b, IsNetSpace, x);
    ReplaceRunsKeeps(c, IsHyphen, x);
    TrimKeeps(d, x);
  }

  lemma SlugOfNoAlnum(title: string)
    requires forall i :: 0 <= i < |title| ==> !IsAlnum(title[i])
    ensures GenerateSlug(title) == []
  {
    var a := Lower(title);
    var b := RemoveDisallowed(a);
    var c := ReplaceRuns(b, IsNetSpace);
    var d := ReplaceRuns(c, IsHyphen);
    RemoveDisallowedOnlyFrom(a);
    assert forall j :: 0 <= j < |a| ==> !IsLowerAscii(a[j]) && !IsDigit(a[j]);
    assert forall j :: 0 <= j < |b| ==> b[j] in a;
    assert forall j :: 0 <= j < |b| ==> IsSpaceOrHyphen(b[j]);
    ReplaceRunsChars(b, IsNetSpace, IsSpaceOrHyphen);
    assert forall j :: 0 <= j < |c| ==> c[j] in c;
    ReplaceRunsChars(c, IsHyphen, IsHyphen);
    assert forall j :: 0 <= j < |d| ==> d[j] in d;
    TrimAllHyphens(d);
  }
}
