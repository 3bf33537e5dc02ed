/** The browser-side helpers of the admin site: the client slug normaliser (a different recipe
    from the server's) and the e-mail shape check. */
module SiteUtils {
  import opened Strings
  import PageSlug

  // ----- Utils.generateSlug -----

  /** `String.prototype.trim`: white space removed from both ends. */
  function TrimSpace(s: string): (r: string)
    ensures r == [] || (!IsJsSpace(r[0]) && !IsJsSpace(r[|r| - 1]))
    ensures forall c :: c in r ==> c in s
    ensures forall i :: 0 <= i < |s| && !IsJsSpace(s[i]) ==> s[i] in r
    decreases |s|
  {
    if s != [] && IsJsSpace(s[0]) then TrimSpace(s[1..])
    else if s != [] && IsJsSpace(s[|s| - 1]) then TrimSpace(s[..|s| - 1])
    else s
  }

  /** `\w` of JavaScript regular expressions. */
  predicate IsWord(c: char) { IsUpperAscii(c) || IsLowerAscii(c) || IsDigit(c) || c == '_' }

  /** The characters `[^\w\s-]` does not match. */
  predicate IsKept(c: char) { IsWord(c) || IsJsSpace(c) || c == '-' }

  /** The characters of the class `[\s_-]`. */
  predicate IsSeparator(c: char) { IsJsSpace(c) || c == '_' || c == '-' }

  function RemoveDisallowed(s: string): (r: string)
    ensures forall i :: 0 <= i < |r| ==> IsKept(r[i])
    ensures forall c :: c in r ==> c in s
    ensures forall c :: c in s && IsKept(c) ==> c in r
  {
    if s == [] then []
    else if IsKept(s[0]) then [s[0]] + RemoveDisallowed(s[1..])
    else RemoveDisallowed(s[1..])
  }

  /** generateSlug: lower case, trim, drop what is not a word character, white space or '-',
      turn each run of white space, '_' and '-' into one '-', and strip '-' from both ends. */
  function GenerateSlug(text: string): string {
    PageSlug.Trim(PageSlug.ReplaceRuns(RemoveDisallowed(TrimSpace(Lower(text))), IsSeparator))
  }

  /** The output holds only a-z, 0-9 and '-', never "--", and no '-' at either end. */
  lemma SlugShape(text: string)
    ensures PageSlug.IsSlug(GenerateSlug(text))
  {
    var a := TrimSpace(Lower(text));
    assert forall c :: c in a ==> !IsUpperAscii(c);
    var b := RemoveDisallowed(a);
    assert forall i :: 0 <= i < |b| ==> !IsUpperAscii(b[i]) && IsKept(b[i]) by {
      forall i | 0 <= i < |b| ensures !IsUpperAscii(b[i]) && IsKept(b[i]) {
        assert b[i] in b;
      }
    }
    var q := (c: char) => IsLowerAscii(c) || IsDigit(c) || IsSeparator(c);
    assert forall i :: 0 <= i < |b| ==> q(b[i]);
    var d := PageSlug.ReplaceRuns(b, IsSeparator);
    PageSlug.ReplaceRunsChars(b, IsSeparator, q);
    PageSlug.ReplaceRunsNoDouble(b, IsSeparator);
    assert forall i :: 0 <= i < |d| ==> d[i] in d;
    PageSlug.TrimIsSlug(d);
  }

  lemma {:induction false} RemoveDisallowedFixed(s: string)
    requires forall i :: 0 <= i < |s| ==> IsKept(s[i])
    ensures RemoveDisallowed(s) == s
  {
    if s != [] {
      RemoveDisallowedFixed(s[1..]);
    }
  }

  lemma TrimSpaceFixed(s: string)
    requires PageSlug.IsSlug(s)
    ensures TrimSpace(s) == s
  {
    assert s == [] || (!IsJsSpace(s[0]) && !IsJsSpace(s[|s| - 1]));
  }

  /** A string every stage leaves alone is left alone by the whole normaliser. */
  lemma StagesFixed(s: string)
    requires Lower(s) == s && TrimSpace(s) == s && RemoveDisallowed(s) == s
    requires PageSlug.ReplaceRuns(s, IsSeparator) == s && PageSlug.Trim(s) == s
    ensures GenerateSlug(s) == s
  {
  }

  lemma KeptFixed(s: string)
    requires PageSlug.IsSlug(s)
    ensures RemoveDisallowed(s) == s
  {
    RemoveDisallowedFixed(s);
  }

  lemma SeparatorsFixed(s: string)
    requires PageSlug.IsSlug(s)
    ensures PageSlug.ReplaceRuns(s, IsSeparator) == s
  {
    PageSlug.ReplaceRunsFixed(s, IsSeparator);
  }

  lemma SlugFixed(s: string)
    requires PageSlug.IsSlug(s)
    ensures GenerateSlug(s) == s
  {
    PageSlug.LowerFixed(s);
    TrimSpaceFixed(s);
    KeptFixed(s);
    SeparatorsFixed(s);
    PageSlug.TrimFixed(s);
    StagesFixed(s);
  }

  /** Normalising a client slug again changes nothing. */
  lemma SlugIdempotent(text: string)
    ensures GenerateSlug(GenerateSlug(text)) == GenerateSlug(text)
  {
    SlugShape(text);
    SlugFixed(GenerateSlug(text));
  }

  /** A title without ASCII letters or digits gives the empty slug. */
  lemma NoAlnumGivesEmpty(text: string)
    requires forall i :: 0 <= i < |text| ==> !PageSlug.IsAlnum(text[i])
    ensures GenerateSlug(text) == []
  {
    assert forall i :: 0 <= i < |text| ==> !IsUpperAscii(text[i]);
    PageSlug.LowerFixed(text);
    var a := TrimSpace(text);
    var b := RemoveDisallowed(a);
    forall i | 0 <= i < |b| ensures IsSeparator(b[i]) {
      assert b[i] in b;
      assert b[i] in text;
    }
    var d := PageSlug.ReplaceRuns(b, IsSeparator);
    PageSlug.ReplaceRunsChars(b, IsSeparator, IsSeparator);
    assert forall i :: 0 <= i < |d| ==> d[i] == '-' by {
      forall i | 0 <= i < |d| ensures d[i] == '-' {
        assert d[i] in d;
      }
    }
    PageSlug.TrimAllHyphens(d);
  }

  /** An ASCII letter or digit of the title survives into the slug. */
  lemma AlnumSurvives(text: string, i: int)
    requires 0 <= i < |text| && PageSlug.IsAlnum(text[i])
    ensures LowerChar(text[i]) in GenerateSlug(text)
  {
    var l := Lower(text);
    var x := l[i];
    assert IsLowerAscii(x) || IsDigit(x);
    var a := TrimSpace(l);
    assert x in a;
    var b := RemoveDisallowed(a);
    assert x in b;
    var d := PageSlug.ReplaceRuns(b, IsSeparator);
    PageSlug.ReplaceRunsKeeps(b, IsSeparator, x);
    PageSlug.TrimKeeps(d, x);
  }

  /** The client slug is empty exactly when the title holds no ASCII letter or digit. */
  lemma SlugEmptyIff(text: string)
    ensures GenerateSlug(text) == [] <==> forall i :: 0 <= i < |text| ==> !PageSlug.IsAlnum(text[i])
  {
    if forall i :: 0 <= i < |text| ==> !PageSlug.IsAlnum(text[i]) {
      NoAlnumGivesEmpty(text);
    } else {
      var i :| 0 <= i < |text| && PageSlug.IsAlnum(text[i]);
      AlnumSurvives(text, i);
    }
  }

  /** Lower case, trim and the removal leave "x_y" alone for lower-case letters x and y. */
  lemma ClientStagesOfUnderscore(x: char, y: char)
    requires IsLowerAscii(x) && IsLowerAscii(y)
    ensures RemoveDisallowed(TrimSpace(Lower([x, '_', y]))) == [x, '_', y]
  {
    var t := [x, '_', y];
    assert Lower(t) == t by { PageSlug.LowerFixed(t); }
    assert TrimSpace(t) == t by { assert !IsJsSpace(t[0]) && !IsJsSpace(t[2]); }
    assert RemoveDisallowed(t) == t by { RemoveDisallowedFixed(t); }
  }

  lemma RunsKeep(c: char, t: string, p: char -> bool)
    requires !p(c)
    ensures PageSlug.ReplaceRuns([c] + t, p) == [c] + PageSlug.ReplaceRuns(t, p)
  {
    assert ([c] + t)[1..] == t;
  }

  lemma RunsSeparator(c: char, t: string, p: char -> bool)
    requires p(c) && (t == [] || !p(t[0]))
    ensures PageSlug.ReplaceRuns([c] + t, p) == "-" + PageSlug.ReplaceRuns(t, p)
  {
    var s := [c] + t;
    assert s[1..] == t;
    assert PageSlug.DropRun(t, p) == t;
    assert PageSlug.DropRun(s, p) == t;
  }

  lemma RunsOfUnderscoreThen(y: char)
    requires IsLowerAscii(y)
    ensures PageSlug.ReplaceRuns(['_', y], IsSeparator) == ['-', y]
  {
    var e: string := [];
    RunsKeep(y, e, IsSeparator);
    assert PageSlug.ReplaceRuns(e, IsSeparator) == [];
    assert [y] + e == [y];
    RunsSeparator('_', [y], IsSeparator);
    assert ['_'] + [y] == ['_', y];
  }

  /** The client turns the '_' of "x_y" into '-'. */
  lemma ClientRunsOfUnderscore(x: char, y: char)
    requires IsLowerAscii(x) && IsLowerAscii(y)
    ensures PageSlug.ReplaceRuns([x, '_', y], IsSeparator) == [x, '-', y]
  {
    RunsOfUnderscoreThen(y);
    RunsKeep(x, ['_', y], IsSeparator);
    assert [x] + ['_', y] == [x, '_', y];
    assert [x] + ['-', y] == [x, '-', y];
  }

  /** `Trim('-')` leaves a string that neither starts nor ends with '-' as it is. */
  lemma TrimInner(s: string)
    requires s != [] && s[0] != '-' && s[|s| - 1] != '-'
    ensures PageSlug.Trim(s) == s
  {
    assert PageSlug.TrimStart(s) == s;
    assert PageSlug.TrimEnd(s) == s;
  }

  /** The client slug of "x_y" is "x-y" for lower-case letters x and y. */
  lemma ClientSlugOfUnderscore(x: char, y: char)
    requires IsLowerAscii(x) && IsLowerAscii(y)
    ensures GenerateSlug([x, '_', y]) == [x, '-', y]
  {
    ClientStagesOfUnderscore(x, y);
    ClientRunsOfUnderscore(x, y);
    TrimInner([x, '-', y]);
  }

  /** The server's page slug of "x_y" is "xy": '_' is not among the characters it keeps. */
  lemma ServerSlugOfUnderscore(x: char, y: char)
    requires IsLowerAscii(x) && IsLowerAscii(y)
    ensures PageSlug.GenerateSlug([x, '_', y]) == [x, y]
  {
    var t := [x, '_', y];
    var u := [x, y];
    PageSlug.LowerFixed(t);
    PageSlug.LowerFixed(u);
    assert t[1..] == ['_', y] && t[1..][1..] == [y];
    assert PageSlug.RemoveDisallowed(t) == [x] + PageSlug.RemoveDisallowed([y]);
    PageSlug.RemoveDisallowedFixed([y]);
    PageSlug.RemoveDisallowedFixed(u);
    assert PageSlug.RemoveDisallowed(t) == u;
    assert PageSlug.IsSlug(u);
    PageSlug.SlugFixed(u);
  }

  /** The client and the server disagree: the server drops '_' while the client turns it into a
      separator, so the same title gets two different slugs. */
  lemma ClientAndServerDiffer(x: char, y: char)
    requires IsLowerAscii(x) && IsLowerAscii(y)
    ensures GenerateSlug([x, '_', y]) != PageSlug.GenerateSlug([x, '_', y])
  {
    ClientSlugOfUnderscore(x, y);
    ServerSlugOfUnderscore(x, y);
  }

  // ----- Utils.isValidEmail -----

  predicate IsAddressChar(c: char) { !IsJsSpace(c) && c != '@' }

  /** The language of `^[^\s@]+@[^\s@]+\.[^\s@]+$`: a non-empty run, '@', a non-empty run, '.',
      a non-empty run, where no run holds white space or '@'. */
  ghost predicate MatchesEmailPattern(s: string) {
    exists i, j ::
      && 0 < i && i + 1 < j && j + 1 < |s|
      && s[i] == '@' && s[j] == '.'
      && (forall k :: 0 <= k < |s| && k != i ==> IsAddressChar(s[k]))
  }

  /** The index of the first `c` in `s`, or |s|. */
  function IndexOf(s: string, c: char): (r: nat)
    ensures r <= |s|
    ensures r < |s| ==> s[r] == c
    ensures forall k :: 0 <= k < r ==> s[k] != c
  {
    if s == [] || s[0] == c then 0 else 1 + IndexOf(s[1..], c)
  }

  /** isValidEmail as the test decides it: no white space, exactly one '@' with something before
      it, and a '.' after the '@' that is neither the first nor the last character there. */
  function IsValidEmail(s: string): bool {
    && (forall k | 0 <= k < |s| :: !IsJsSpace(s[k]))
    && CountChar(s, '@') == 1
    && var at := IndexOf(s, '@');
       && 0 < at < |s|
       && exists j | at + 1 < j < |s| - 1 :: s[j] == '.'
  }

  lemma {:induction false} CountCharOne(s: string, c: char, i: int)
    requires 0 <= i < |s| && s[i] == c
    ensures CountChar(s, c) == 1 <==> forall k :: 0 <= k < |s| && k != i ==> s[k] != c
  {
    CountCharAppend(s[..i], s[i..], c);
    assert s[..i] + s[i..] == s;
    CountCharAppend([s[i]], s[i + 1..], c);
    assert [s[i]] + s[i + 1..] == s[i..];
    assert CountChar([s[i]], c) == 1;
    if forall k :: 0 <= k < |s| && k != i ==> s[k] != c {
      CountCharAbsent(s[..i], c);
      CountCharAbsent(s[i + 1..], c);
    } else {
      var k :| 0 <= k < |s| && k != i && s[k] == c;
      if k < i {
        CountCharPositive(s[..i], c, k);
      } else {
        CountCharPositive(s[i + 1..], c, k - i - 1);
      }
    }
  }

  lemma {:induction false} CountCharPositive(s: string, c: char, k: int)
    requires 0 <= k < |s| && s[k] == c
    ensures CountChar(s, c) >= 1
  {
    CountCharAppend(s[..k], s[k..], c);
    assert s[..k] + s[k..] == s;
    CountCharAppend([s[k]], s[k + 1..], c);
    assert [s[k]] + s[k + 1..] == s[k..];
  }

  /** The check accepts exactly the strings the pattern matches. */
  lemma IsValidEmailMatchesPattern(s: string)
    ensures IsValidEmail(s) <==> MatchesEmailPattern(s)
  {
    if IsValidEmail(s) {
      var at := IndexOf(s, '@');
      var j :| at + 1 < j < |s| - 1 && s[j] == '.';
      CountCharOne(s, '@', at);
      assert forall k :: 0 <= k < |s| && k != at ==> IsAddressChar(s[k]);
      assert MatchesEmailPattern(s);
    }
    if MatchesEmailPattern(s) {
      var i, j :| && 0 < i && i + 1 < j && j + 1 < |s|
                  && s[i] == '@' && s[j] == '.'
                  && (forall k :: 0 <= k < |s| && k != i ==> IsAddressChar(s[k]));
      CountCharOne(s, '@', i);
      var at := IndexOf(s, '@');
      assert at == i;
      assert IsValidEmail(s);
    }
  }
}
