/** The admin page's section builder: an in-browser list of sections that the editor changes in
    place (push, splice and field assignment), including the testimonial, feature and gallery
    lists nested in a section's content. */
module SectionBuilding {
  import opened Wrappers

  /** A testimonial or feature entry: a plain object of text fields. */
  type Item = map<string, string>

  /** A section's `content` object: its text fields and the three optional lists. */
  datatype Content = Content(
    fields: map<string, string>,
    testimonials: Option<seq<Item>>,
    features: Option<seq<Item>>,
    images: Option<seq<string>>)

  const EmptyContent: Content := Content(map[], None, None, None)

  /** `isVisible` may be unset; the renderer treats an unset flag as visible. */
  datatype Section = Section(
    id: int, sectionType: string, order: int, isVisible: Option<bool>, content: Option<Content>)

  const BlankTestimonial: Item := map["name" := "", "position" := "", "text" := ""]
  const BlankFeature: Item := map["icon" := "", "title" := "", "description" := ""]

  // ----- Array.prototype.splice(index, 1) -----

  /** Where `splice` starts: a negative index counts from the end, and the start is clamped
      to the array. */
  function SpliceStart(len: nat, index: int): (k: nat)
    ensures k <= len
    ensures 0 <= index <= len ==> k == index
  {
    if index < 0 then (if len + index < 0 then 0 else len + index)
    else if index > len then len else index
  }

  /** `splice(index, 1)`: removes the element at the start position, if there is one. */
  function RemoveAt<T>(s: seq<T>, index: int): (r: seq<T>)
    ensures 0 <= index < |s| ==> r == s[..index] + s[index + 1..]
    ensures index >= |s| ==> r == s
  {
    var k := SpliceStart(|s|, index);
    if k < |s| then s[..k] + s[k + 1..] else s
  }

  /** Removing at an index in range drops exactly that element: one fewer, the rest kept. */
  lemma RemoveAtSpec<T>(s: seq<T>, index: int)
    requires 0 <= index < |s|
    ensures var r := RemoveAt(s, index);
            && |r| == |s| - 1
            && multiset(r) + multiset{s[index]} == multiset(s)
            && (forall i :: 0 <= i < index ==> r[i] == s[i])
            && (forall i :: index <= i < |r| ==> r[i] == s[i + 1])
  {
    var r := RemoveAt(s, index);
    assert s == s[..index] + [s[index]] + s[index + 1..];
    assert r == s[..index] + s[index + 1..];
  }

  /** A negative index removes from the end, as `splice` does. */
  lemma RemoveAtNegative<T>(s: seq<T>)
    requires s != []
    ensures RemoveAt(s, -1) == s[..|s| - 1]
  {
  }

  // ----- toggling -----

  /** `!isVisible`: an unset flag negates to true. */
  function Toggled(v: Option<bool>): (r: Option<bool>)
    ensures r.Some?
    ensures r == Some(true) <==> v != Some(true)
  {
    Some(!(v == Some(true)))
  }

  /** Two toggles restore a set flag, and turn an unset one into an explicit false. */
  lemma ToggleTwice(v: Option<bool>)
    ensures v.Some? ==> Toggled(Toggled(v)) == v
    ensures v.None? ==> Toggled(Toggled(v)) == Some(false)
  {
    if v.Some? {
      assert Toggled(v) == Some(!v.value);
    }
  }

  // ----- reordering -----

  /** The list the cards' old indices pick out, position by position. */
  function Reordered<T>(s: seq<T>, oldIndices: seq<int>): (r: seq<T>)
    requires forall i :: 0 <= i < |oldIndices| ==> 0 <= oldIndices[i] < |s|
    ensures |r| == |oldIndices|
    ensures forall i :: 0 <= i < |r| ==> r[i] == s[oldIndices[i]]
  {
    seq(|oldIndices|, i requires 0 <= i < |oldIndices| => s[oldIndices[i]])
  }

  ghost predicate IsPermutation(p: seq<int>, n: int) {
    && |p| == n
    && (forall i :: 0 <= i < |p| ==> 0 <= p[i] < n)
    && (forall i, j :: 0 <= i < j < |p| ==> p[i] != p[j])
  }

  /** `p` without its last entry, renumbered to skip the index that entry held. */
  function Shrink(p: seq<int>): (q: seq<int>)
    requires p != []
    ensures |q| == |p| - 1
    ensures forall i :: 0 <= i < |q| ==>
              q[i] == if p[i] > p[|p| - 1] then p[i] - 1 else p[i]
  {
    var j := p[|p| - 1];
    seq(|p| - 1, i requires 0 <= i < |p| - 1 => if p[i] > j then p[i] - 1 else p[i])
  }

  /** When the old indices are a permutation of the positions, the reordered list is a
      rearrangement of the old one: the same length and the same sections, each as often. */
  lemma {:induction false} ReorderedPermutation<T>(s: seq<T>, p: seq<int>)
    requires IsPermutation(p, |s|)
    ensures |Reordered(s, p)| == |s|
    ensures multiset(Reordered(s, p)) == multiset(s)
    decreases |s|
  {
    if s != [] {
      var j := p[|s| - 1];
      var s' := s[..j] + s[j + 1..];
      var p' := Shrink(p);
      ShrinkPermutation(p, |s|);
      ReorderedPermutation(s', p');
      ReorderedLast(s, p);
      RemoveOne(s, j);
    }
  }

  lemma ShrinkPermutation(p: seq<int>, n: int)
    requires n > 0 && IsPermutation(p, n)
    ensures IsPermutation(Shrink(p), n - 1)
  {
    var q := Shrink(p);
    var j := p[n - 1];
    forall i | 0 <= i < |q| ensures 0 <= q[i] < n - 1 {
      assert p[i] != j;
    }
  }

  /** Reordering by `p` is reordering the list without the last pick by the shrunk `p`, then
      the last pick. */
  lemma ReorderedLast<T>(s: seq<T>, p: seq<int>)
    requires s != [] && IsPermutation(p, |s|) && IsPermutation(Shrink(p), |s| - 1)
    ensures Reordered(s, p)
              == Reordered(s[..p[|s| - 1]] + s[p[|s| - 1] + 1..], Shrink(p)) + [s[p[|s| - 1]]]
  {
    var n := |s|;
    var j := p[n - 1];
    var r := Reordered(s, p);
    var r' := Reordered(s[..j] + s[j + 1..], Shrink(p));
    forall i | 0 <= i < n - 1 ensures r[i] == r'[i] {
      assert p[i] != j;
    }
  }

  lemma RemoveOne<T>(s: seq<T>, j: int)
    requires 0 <= j < |s|
    ensures multiset(s) == multiset(s[..j] + s[j + 1..]) + multiset{s[j]}
  {
    assert s == s[..j] + [s[j]] + s[j + 1..];
  }

  // ----- the builder -----

  class SectionBuilder {
    var sections: seq<Section>

    constructor ()
      ensures sections == []
    {
      sections := [];
    }

    /** getSections. */
    function Sections(): seq<Section>
      reads this
    {
      sections
    }

    /** addSection: one new visible section with empty content at the end, numbered by the
        list's length; `id` stands for the `Date.now()` value. */
    method AddSection(sectionType: string, id: int)
      modifies this
      ensures sections == old(sections) + [Section(id, sectionType, |old(sections)|, Some(true), Some(EmptyContent))]
    {
      sections := sections + [Section(id, sectionType, |sections|, Some(true), Some(EmptyContent))];
    }

    /** deleteSection: when the user confirms, `splice(index, 1)`; the remaining sections keep
        their `order` numbers. */
    method DeleteSection(index: int, confirmed: bool)
      modifies this
      ensures confirmed ==> sections == RemoveAt(old(sections), index)
      ensures !confirmed ==> sections == old(sections)
    {
      if confirmed {
        sections := RemoveAt(sections, index);
      }
    }

    method ToggleVisibility(index: int)
      requires 0 <= index < |sections|
      modifies this
      ensures sections == old(sections)[index := old(sections)[index].(isVisible := Toggled(old(sections)[index].isVisible))]
    {
      sections := sections[index := sections[index].(isVisible := Toggled(sections[index].isVisible))];
    }

    /** updateSection: creates `content` when missing and sets one of its fields. */
    method UpdateSection(index: int, field: string, value: string)
      requires 0 <= index < |sections|
      modifies this
      ensures var c := old(sections)[index].content.GetOr(EmptyContent);
              sections == old(sections)[index := old(sections)[index].(content := Some(c.(fields := c.fields[field := value])))]
    {
      var c := sections[index].content.GetOr(EmptyContent);
      sections := sections[index := sections[index].(content := Some(c.(fields := c.fields[field := value])))];
    }

    /** updateSectionOrder: position i receives the section the i-th card was drawn from. */
    method UpdateSectionOrder(oldIndices: seq<int>)
      requires forall i :: 0 <= i < |oldIndices| ==> 0 <= oldIndices[i] < |sections|
      modifies this
      ensures sections == Reordered(old(sections), oldIndices)
    {
      var newOrder: seq<Section> := [];
      for i := 0 to |oldIndices|
        invariant newOrder == Reordered(sections, oldIndices[..i])
      {
        newOrder := newOrder + [sections[oldIndices[i]]];
      }
      assert oldIndices[..|oldIndices|] == oldIndices;
      sections := newOrder;
    }

    /** addTestimonial: creates the list when missing and appends a blank entry. */
    method AddTestimonial(index: int)
      requires 0 <= index < |sections| && sections[index].content.Some?
      modifies this
      ensures var c := old(sections)[index].content.value;
              sections == old(sections)[index := old(sections)[index].(content := Some(c.(testimonials := Some(c.testimonials.GetOr([]) + [BlankTestimonial]))))]
    {
      var c := sections[index].content.value;
      sections := sections[index := sections[index].(content := Some(c.(testimonials := Some(c.testimonials.GetOr([]) + [BlankTestimonial]))))];
    }

    method RemoveTestimonial(index: int, item: int)
      requires 0 <= index < |sections| && sections[index].content.Some?
      requires sections[index].content.value.testimonials.Some?
      modifies this
      ensures var c := old(sections)[index].content.value;
              sections == old(sections)[index := old(sections)[index].(content := Some(c.(testimonials := Some(RemoveAt(c.testimonials.value, item)))))]
    {
      var c := sections[index].content.value;
      sections := sections[index := sections[index].(content := Some(c.(testimonials := Some(RemoveAt(c.testimonials.value, item)))))];
    }

    /** updateTestimonial: sets one field of one entry. */
    method UpdateTestimonial(index: int, item: int, field: string, value: string)
      requires 0 <= index < |sections| && sections[index].content.Some?
      requires sections[index].content.value.testimonials.Some?
      requires 0 <= item < |sections[index].content.value.testimonials.value|
      modifies this
      ensures var c := old(sections)[index].content.value;
              var list := c.testimonials.value;
              sections == old(sections)[index := old(sections)[index].(content := Some(c.(testimonials := Some(list[item := list[item][field := value]]))))]
    {
      var c := sections[index].content.value;
      var list := c.testimonials.value;
      sections := sections[index := sections[index].(content := Some(c.(testimonials := Some(list[item := list[item][field := value]]))))];
    }

    /** addFeature: creates the list when missing and appends a blank entry. */
    method AddFeature(index: int)
      requires 0 <= index < |sections| && sections[index].content.Some?
      modifies this
      ensures var c := old(sections)[index].content.value;
              sections == old(sections)[index := old(sections)[index].(content := Some(c.(features := Some(c.features.GetOr([]) + [BlankFeature]))))]
    {
      var c := sections[index].content.value;
      sections := sections[index := sections[index].(content := Some(c.(features := Some(c.features.GetOr([]) + [BlankFeature]))))];
    }

    method RemoveFeature(index: int, item: int)
      requires 0 <= index < |sections| && sections[index].content.Some?
      requires sections[index].content.value.features.Some?
      modifies this
      ensures var c := old(sections)[index].content.value;
              sections == old(sections)[index := old(sections)[index].(content := Some(c.(features := Some(RemoveAt(c.features.value, item)))))]
    {
      var c := sections[index].content.value;
      sections := sections[index := sections[index].(content := Some(c.(features := Some(RemoveAt(c.features.value, item)))))];
    }

    /** updateFeature: sets one field of one entry. */
    method UpdateFeature(index: int, item: int, field: string, value: string)
      requires 0 <= index < |sections| && sections[index].content.Some?
      requires sections[index].content.value.features.Some?
      requires 0 <= item < |sections[index].content.value.features.value|
      modifies this
      ensures var c := old(sections)[index].content.value;
              var list := c.features.value;
              sections == old(sections)[index := old(sections)[index].(content := Some(c.(features := Some(list[item := list[item][field := value]]))))]
    {
      var c := sections[index].content.value;
      var list := c.features.value;
      sections := sections[index := sections[index].(content := Some(c.(features := Some(list[item := list[item][field := value]]))))];
    }

    /** addGalleryImage: creates the list when missing and appends the URL. */
    method AddGalleryImage(index: int, url: string)
      requires 0 <= index < |sections| && sections[index].content.Some?
      modifies this
      ensures var c := old(sections)[index].content.value;
              sections == old(sections)[index := old(sections)[index].(content := Some(c.(images := Some(c.images.GetOr([]) + [url]))))]
    {
      var c := sections[index].content.value;
      sections := sections[index := sections[index].(content := Some(c.(images := Some(c.images.GetOr([]) + [url]))))];
    }

    method RemoveGalleryImage(index: int, image: int)
      requires 0 <= index < |sections| && sections[index].content.Some?
      requires sections[index].content.value.images.Some?
      modifies this
      ensures var c := old(sections)[index].content.value;
              sections == old(sections)[index := old(sections)[index].(content := Some(c.(images := Some(RemoveAt(c.images.value, image)))))]
    {
      var c := sections[index].content.value;
      sections := sections[index := sections[index].(content := Some(c.(images := Some(RemoveAt(c.images.value, image)))))];
    }
  }
}
