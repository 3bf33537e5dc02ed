/** The builder's properties panel: each handler computes a new configuration from the old one
    (map, filter, spread, splice on a copy) and hands it to `updateConfig`. */
module Editor {
  import opened Wrappers
  import opened Strings
  import opened Queries
  import opened LandingConfig

  // ----- toggleVisibility -----

  function ToggleIn(id: string): Section -> Section {
    (s: Section) => if s.id == id then s.(isVisible := !s.isVisible) else s
  }

  function MapSections(f: Section -> Section, s: seq<Section>): (r: seq<Section>)
    ensures |r| == |s|
    ensures forall i :: 0 <= i < |s| ==> r[i] == f(s[i])
  {
    seq(|s|, i requires 0 <= i < |s| => f(s[i]))
  }

  function ToggleVisibility(c: Config, id: string): Config {
    c.(sections := MapSections(ToggleIn(id), c.sections))
  }

  /** Only the sections with that id change, and only in `isVisible`; toggling twice restores
      the configuration. */
  lemma ToggleVisibilitySpec(c: Config, id: string)
    ensures var r := ToggleVisibility(c, id);
            && r.(sections := c.sections) == c
            && |r.sections| == |c.sections|
            && (forall i :: 0 <= i < |c.sections| ==>
                  if c.sections[i].id == id
                  then r.sections[i] == c.sections[i].(isVisible := !c.sections[i].isVisible)
                  else r.sections[i] == c.sections[i])
            && ToggleVisibility(r, id) == c
  {
    var r := ToggleVisibility(c, id);
    var rr := ToggleVisibility(r, id);
    assert rr.sections == c.sections;
  }

  // ----- moveSection -----

  /** `moveSection`: swaps with the neighbour above or below; `None` when that neighbour does
      not exist, in which case `updateConfig` is not called. */
  function MoveSection(c: Config, index: int, up: bool): Option<Config>
    requires 0 <= index < |c.sections|
  {
    var s := c.sections;
    var target := if up then index - 1 else index + 1;
    if 0 <= target < |s| then Some(c.(sections := s[index := s[target]][target := s[index]]))
    else None
  }

  /** A move within range swaps exactly the two neighbours and keeps every section; a move
      past either end changes nothing. */
  lemma MoveSectionSpec(c: Config, index: int, up: bool)
    requires 0 <= index < |c.sections|
    ensures var s := c.sections;
            var target := if up then index - 1 else index + 1;
            var r := MoveSection(c, index, up);
            && (r.Some? <==> 0 <= target < |s|)
            && (r.Some? ==>
                  && r.value.(sections := s) == c
                  && |r.value.sections| == |s|
                  && multiset(r.value.sections) == multiset(s)
                  && r.value.sections[index] == s[target] && r.value.sections[target] == s[index]
                  && (forall i :: 0 <= i < |s| && i != index && i != target ==> r.value.sections[i] == s[i]))
  {
    var s := c.sections;
    var target := if up then index - 1 else index + 1;
    if 0 <= target < |s| {
      var t := s[index := s[target]][target := s[index]];
      SwapPermutation(s, index, target);
    }
  }

  lemma SwapPermutation<T>(s: seq<T>, i: int, j: int)
    requires 0 <= i < |s| && 0 <= j < |s|
    ensures multiset(s[i := s[j]][j := s[i]]) == multiset(s)
  {
    var t := s[i := s[j]];
    assert multiset(t) == multiset(s) - multiset{s[i]} + multiset{s[j]};
    assert t[j] == s[j] || i == j;
    assert multiset(t[j := s[i]]) == multiset(t) - multiset{t[j]} + multiset{s[i]};
  }

  /** Moving a section down and then back up restores the configuration. */
  lemma MoveSectionUndo(c: Config, index: int)
    requires 0 <= index < |c.sections| - 1
    ensures MoveSection(c, index, false).Some?
    ensures MoveSection(MoveSection(c, index, false).value, index + 1, true) == Some(c)
  {
    var s := c.sections;
    var t := s[index := s[index + 1]][index + 1 := s[index]];
    assert t[index + 1 := t[index]][index := t[index + 1]] == s;
  }

  // ----- removeSection -----

  function IdDiffers(id: string): Section -> bool { (s: Section) => s.id != id }

  function RemoveSection(c: Config, id: string): Config {
    c.(sections := Filter(IdDiffers(id), c.sections))
  }

  /** Exactly the sections with a different id remain, as often as before and in their old
      order; removing an id that no section has changes nothing. */
  lemma RemoveSectionSpec(c: Config, id: string)
    ensures var r := RemoveSection(c, id).sections;
            && (forall i :: 0 <= i < |r| ==> r[i].id != id)
            && (forall x :: x in r <==> x in c.sections && x.id != id)
            && (forall x: Section :: x.id != id ==> multiset(r)[x] == multiset(c.sections)[x])
            && ((forall i :: 0 <= i < |c.sections| ==> c.sections[i].id != id) ==> RemoveSection(c, id) == c)
  {
    var r := RemoveSection(c, id).sections;
    FilterMembers(IdDiffers(id), c.sections);
    forall i | 0 <= i < |r| ensures r[i].id != id {
      assert r[i] in r;
    }
    forall x: Section | x.id != id ensures multiset(Filter(IdDiffers(id), c.sections))[x] == multiset(c.sections)[x] {
      FilterCount(IdDiffers(id), c.sections, x);
    }
    if forall i :: 0 <= i < |c.sections| ==> c.sections[i].id != id {
      FilterAll(IdDiffers(id), c.sections);
    }
  }

  // ----- addSection -----

  /** `findIndex(s => s.type === FOOTER)`: the first footer's position, or -1. */
  function FooterIndex(s: seq<Section>): (k: int)
    ensures -1 <= k < |s|
    ensures k >= 0 ==> s[k].sectionType == Footer
    ensures forall i :: 0 <= i < |s| && (k == -1 || i < k) ==> s[i].sectionType != Footer
  {
    if s == [] then -1
    else if s[0].sectionType == Footer then 0
    else
      var r := FooterIndex(s[1..]);
      if r == -1 then -1 else r + 1
  }

  const PlaceholderImage: string :=
    "https://images.unsplash.com/photo-1498050108023-c5249f4df085?auto=format&fit=crop&w=800&q=80"

  /** The starter `items`: two features, one pricing plan, otherwise none. */
  function DefaultItems(t: SectionType): (r: seq<Item>)
    ensures t == Features ==> |r| == 2
    ensures t == Pricing ==> |r| == 1
    ensures t != Features && t != Pricing ==> r == []
  {
    match t
    case Features => [map["title" := Str("Feature 1"), "description" := Str("Details...")],
                      map["title" := Str("Feature 2"), "description" := Str("Details...")]]
    case Pricing => [map["plan" := Str("Free"), "price" := Str("$0"), "features" := Strs(["1 User"])]]
    case _ => []
  }

  /** The new section: id "<type in lower case>-<timestamp>", visible, with starter content. */
  function NewSection(t: SectionType, now: nat): (s: Section)
    ensures s.sectionType == t && s.isVisible
    ensures "items" in s.content && s.content["items"] == Items(DefaultItems(t))
  {
    Section(Lower(TypeName(t)) + "-" + NatToString(now), t, true,
            map["title" := Text("New " + TypeName(t) + " Section"),
                "subtitle" := Text("Add a subtitle here"),
                "description" := Text("Add a description here."),
                "backgroundColor" := Text("#ffffff"),
                "textColor" := Text("#1e293b"),
                "imageUrl" := Text(PlaceholderImage),
                "items" := Items(DefaultItems(t))])
  }

  function AddSection(c: Config, t: SectionType, now: nat): Config {
    var s := c.sections;
    var k := FooterIndex(s);
    var n := NewSection(t, now);
    c.(sections := if k != -1 then s[..k] + [n] + s[k..] else s + [n])
  }

  /** The new section lands right before the first footer, or at the end when there is none;
      taking it out again gives back the old list. */
  lemma AddSectionSpec(c: Config, t: SectionType, now: nat)
    ensures var r := AddSection(c, t, now);
            var s := c.sections;
            exists p :: 0 <= p <= |s|
              && r.sections == s[..p] + [NewSection(t, now)] + s[p..]
              && (p < |s| ==> s[p].sectionType == Footer)
              && (forall i :: 0 <= i < p ==> s[i].sectionType != Footer)
              && r.(sections := s) == c
  {
    var s := c.sections;
    var k := FooterIndex(s);
    if k == -1 {
      assert s[..|s|] == s && s[|s|..] == [];
    } else {
      assert 0 <= k <= |s|;
    }
  }

  // ----- updateSectionContent -----

  function MergeIn(id: string, updates: Content): Section -> Section {
    (s: Section) => if s.id == id then s.(content := s.content + updates) else s
  }

  /** `{ ...s.content, ...updates }` on the sections with that id. */
  function UpdateSectionContent(c: Config, id: string, updates: Content): Config {
    c.(sections := MapSections(MergeIn(id, updates), c.sections))
  }

  /** In a matching section every updated key takes the new value and every other key keeps
      its old one; other sections and the rest of the configuration do not change; repeating
      the update changes nothing more. */
  lemma UpdateSectionContentSpec(c: Config, id: string, updates: Content)
    ensures var r := UpdateSectionContent(c, id, updates);
            && r.(sections := c.sections) == c
            && |r.sections| == |c.sections|
            && (forall i, k :: 0 <= i < |c.sections| && c.sections[i].id == id && k in updates ==>
                  k in r.sections[i].content && r.sections[i].content[k] == updates[k])
            && (forall i, k :: 0 <= i < |c.sections| && c.sections[i].id == id && k !in updates ==>
                  (k in r.sections[i].content <==> k in c.sections[i].content))
            && (forall i, k :: 0 <= i < |c.sections| && c.sections[i].id == id && k !in updates && k in c.sections[i].content ==>
                  r.sections[i].content[k] == c.sections[i].content[k])
            && (forall i :: 0 <= i < |c.sections| && c.sections[i].id != id ==> r.sections[i] == c.sections[i])
            && UpdateSectionContent(r, id, updates) == r
  {
    var r := UpdateSectionContent(c, id, updates);
    var rr := UpdateSectionContent(r, id, updates);
    forall i | 0 <= i < |c.sections| ensures rr.sections[i] == r.sections[i] {
      if c.sections[i].id == id {
        var m := r.sections[i].content;
        assert m + updates == m;
      }
    }
    assert rr.sections == r.sections;
  }

  // ----- theme and SEO -----

  function SetPrimaryColor(c: Config, color: string): Config { c.(theme := c.theme.(primaryColor := color)) }

  function SetFontFamily(c: Config, font: string): Config { c.(theme := c.theme.(fontFamily := font)) }

  /** The slider value is stored as `${value}px`. */
  function SetBorderRadius(c: Config, value: nat): Config {
    c.(theme := c.theme.(borderRadius := NatToString(value) + "px"))
  }

  function SetSeoTitle(c: Config, title: string): Config { c.(seo := c.seo.(title := title)) }

  function SetSeoDescription(c: Config, description: string): Config {
    c.(seo := c.seo.(description := description))
  }

  /** `parseInt`: the value of the leading decimal digits, if there are any. */
  function ParseLeadingInt(s: string): Option<nat> {
    var n := LeadingDigits(s);
    if n == 0 then None else Some(DigitsValue(s[..n]))
  }

  function LeadingDigits(s: string): (n: nat)
    ensures n <= |s|
    ensures forall i :: 0 <= i < n ==> IsDigit(s[i])
    ensures n < |s| ==> !IsDigit(s[n])
  {
    if s != [] && IsDigit(s[0]) then 1 + LeadingDigits(s[1..]) else 0
  }

  function DigitsValue(s: string): nat
    requires forall i :: 0 <= i < |s| ==> IsDigit(s[i])
  {
    if s == [] then 0
    else
      assert IsDigit(s[|s| - 1]);
      10 * DigitsValue(s[..|s| - 1]) + (s[|s| - 1] as int - '0' as int)
  }

  lemma {:induction false} NatToStringValue(n: nat)
    ensures DigitsValue(NatToString(n)) == n
    decreases n
  {
    if n >= 10 {
      NatToStringValue(n / 10);
      var r := NatToString(n);
      assert r[..|r| - 1] == NatToString(n / 10);
    }
  }

  /** The slider reads the radius back with `parseInt`, and gets the value it stored. */
  lemma BorderRadiusRoundTrip(c: Config, value: nat)
    ensures ParseLeadingInt(SetBorderRadius(c, value).theme.borderRadius) == Some(value)
  {
    var digits := NatToString(value);
    var s := digits + "px";
    assert forall i :: 0 <= i < |digits| ==> s[i] == digits[i];
    assert s[|digits|] == 'p';
    LeadingDigitsOf(s, |digits|);
    assert s[..|digits|] == digits;
    NatToStringValue(value);
  }

  lemma {:induction false} LeadingDigitsOf(s: string, n: nat)
    requires n < |s| && !IsDigit(s[n])
    requires forall i :: 0 <= i < n ==> IsDigit(s[i])
    ensures LeadingDigits(s) == n
  {
    if n > 0 {
      LeadingDigitsOf(s[1..], n - 1);
    }
  }

  /** Each theme or SEO edit sets its one field and leaves the sections, and the other group,
      alone. */
  lemma SingleFieldEdits(c: Config, v: string, n: nat)
    ensures SetPrimaryColor(c, v).theme.primaryColor == v
    ensures SetFontFamily(c, v).theme.fontFamily == v
    ensures SetSeoTitle(c, v).seo.title == v && SetSeoDescription(c, v).seo.description == v
    ensures var cs := [SetPrimaryColor(c, v), SetFontFamily(c, v), SetBorderRadius(c, n)];
            forall i :: 0 <= i < 3 ==> cs[i].(theme := c.theme) == c
    ensures var cs := [SetSeoTitle(c, v), SetSeoDescription(c, v)];
            forall i :: 0 <= i < 2 ==> cs[i].(seo := c.seo) == c
  {
  }
}
