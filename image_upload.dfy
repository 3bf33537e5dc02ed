/** The browser-side image uploader's file check and the media picker's selection state. */
module ImageUpload {
  import opened Wrappers

  // ----- ImageUploader -----

  const DefaultMaxSize: int := 5 * 1024 * 1024
  const DefaultAllowedTypes: seq<string> := ["image/jpeg", "image/png", "image/gif", "image/webp"]

  /** The constructor's options; `None` is an absent option. */
  datatype Options = Options(maxSize: Option<int>, allowedTypes: Option<seq<string>>)

  datatype Uploader = Uploader(maxSize: int, allowedTypes: seq<string>)

  /** `options.maxSize || 5 MiB`: an absent or zero size falls back to the default; an empty
      type list is an array, which is truthy, so it is kept. */
  function NewUploader(options: Options): (u: Uploader)
    ensures options.maxSize.Some? && options.maxSize.value != 0 ==> u.maxSize == options.maxSize.value
    ensures options.maxSize.None? || options.maxSize.value == 0 ==> u.maxSize == DefaultMaxSize
    ensures u.allowedTypes == options.allowedTypes.GetOr(DefaultAllowedTypes)
  {
    Uploader(if options.maxSize.None? || options.maxSize.value == 0 then DefaultMaxSize else options.maxSize.value,
             options.allowedTypes.GetOr(DefaultAllowedTypes))
  }

  /** The picked file's MIME type and size. */
  datatype File = File(mimeType: string, size: int)

  /** `validateFile`: a file must be present, of an allowed type, and no larger than the limit. */
  function ValidateFile(u: Uploader, file: Option<File>): (ok: bool)
    ensures ok <==> file.Some? && file.value.mimeType in u.allowedTypes && file.value.size <= u.maxSize
  {
    if file.None? then false
    else if file.value.mimeType !in u.allowedTypes then false
    else !(file.value.size > u.maxSize)
  }

  /** With the default options, a JPEG of exactly 5 MiB passes, one byte more fails, and a
      type outside the four image types fails. */
  lemma DefaultValidation(size: int, mimeType: string)
    ensures var u := NewUploader(Options(None, None));
            && ValidateFile(u, Some(File("image/jpeg", DefaultMaxSize)))
            && !ValidateFile(u, Some(File("image/jpeg", DefaultMaxSize + 1)))
            && (mimeType !in DefaultAllowedTypes ==> !ValidateFile(u, Some(File(mimeType, size))))
            && !ValidateFile(u, None)
  {
    assert "image/jpeg" in DefaultAllowedTypes;
  }

  // ----- MediaPicker selection -----

  /** `indexOf`: the first position of `x`, or -1. */
  function IndexOf(s: seq<string>, x: string): (i: int)
    ensures -1 <= i < |s|
    ensures i == -1 <==> x !in s
    ensures i >= 0 ==> s[i] == x && forall j :: 0 <= j < i ==> s[j] != x
  {
    if s == [] then -1
    else if s[0] == x then 0
    else
      var k := IndexOf(s[1..], x);
      if k == -1 then -1 else k + 1
  }

  /** The selection after `toggleSelection(url)`: in multi-select mode the first occurrence of a
      selected URL is spliced out and an unselected one is pushed; in single-select mode the URL
      becomes the whole selection. */
  function Toggled(selected: seq<string>, url: string, multiSelect: bool): seq<string> {
    if !multiSelect then [url]
    else
      var i := IndexOf(selected, url);
      if i > -1 then selected[..i] + selected[i + 1..] else selected + [url]
  }

  /** No URL is selected twice. */
  predicate NoDuplicates(s: seq<string>) {
    forall i, j :: 0 <= i < j < |s| ==> s[i] != s[j]
  }

  /** In multi-select mode a toggle flips exactly the toggled URL's membership and keeps the
      selection free of duplicates; every other URL stays as selected as it was. */
  lemma ToggleFlips(selected: seq<string>, url: string)
    requires NoDuplicates(selected)
    ensures var r := Toggled(selected, url, true);
            && NoDuplicates(r)
            && (url in r <==> url !in selected)
            && (forall x :: x != url ==> (x in r <==> x in selected))
            && (url in selected ==> |r| == |selected| - 1)
            && (url !in selected ==> r == selected + [url])
  {
    var i := IndexOf(selected, url);
    if i > -1 {
      var r := selected[..i] + selected[i + 1..];
      forall a, b | 0 <= a < b < |r| ensures r[a] != r[b] {
        var a' := if a < i then a else a + 1;
        var b' := if b < i then b else b + 1;
        assert r[a] == selected[a'] && r[b] == selected[b'];
      }
      forall x ensures x in r <==> x in selected && x != url {
        if x in r {
          var k :| 0 <= k < |r| && r[k] == x;
          assert x == selected[if k < i then k else k + 1];
        }
        if x in selected && x != url {
          var k :| 0 <= k < |selected| && selected[k] == x;
          assert k != i;
          assert x == r[if k < i then k else k - 1];
        }
      }
    }
  }

  /** Toggling an unselected URL twice in multi-select mode restores the selection. */
  lemma ToggleTwice(selected: seq<string>, url: string)
    requires url !in selected
    ensures Toggled(Toggled(selected, url, true), url, true) == selected
  {
    var s1 := selected + [url];
    assert IndexOf(s1, url) == |selected| by {
      assert s1[|selected|] == url;
      forall j | 0 <= j < |selected| ensures s1[j] != url {
        assert s1[j] == selected[j];
      }
    }
    assert s1[..|selected|] == selected;
  }

  /** What `confirmSelection` hands to the callback: the whole list in multi-select mode, the
      first URL otherwise. */
  datatype Delivery = Urls(urls: seq<string>) | SingleUrl(url: string)

  /** `confirmSelection`: nothing is delivered and the dialog stays open while the selection is
      empty; otherwise the callback, when set, receives the selection and the dialog closes. */
  function Confirmed(selected: seq<string>, multiSelect: bool, hasOnSelect: bool): (r: (Option<Delivery>, bool))
    ensures selected == [] ==> r == (None, false)
    ensures selected != [] ==> r.1
    ensures r.0.Some? <==> selected != [] && hasOnSelect
    ensures r.0.Some? && multiSelect ==> r.0.value == Urls(selected)
    ensures r.0.Some? && !multiSelect ==> r.0.value == SingleUrl(selected[0])
  {
    if |selected| == 0 then (None, false)
    else if hasOnSelect then (Some(if multiSelect then Urls(selected) else SingleUrl(selected[0])), true)
    else (None, true)
  }

  /** The picker dialog. `onSelect` is modelled by whether it is set; what it does is the
      caller's. */
  class MediaPicker {
    var selectedImages: seq<string>
    var multiSelect: bool
    var hasOnSelect: bool

    constructor ()
      ensures selectedImages == [] && !multiSelect && !hasOnSelect
    {
      selectedImages := [];
      multiSelect := false;
      hasOnSelect := false;
    }

    /** `show`: takes the mode and callback from the options and clears the selection. */
    method Show(multi: bool, onSelect: bool)
      modifies this
      ensures selectedImages == [] && multiSelect == multi && hasOnSelect == onSelect
    {
      multiSelect := multi;
      hasOnSelect := onSelect;
      selectedImages := [];
    }

    method ToggleSelection(url: string)
      modifies this
      ensures selectedImages == Toggled(old(selectedImages), url, multiSelect)
      ensures multiSelect == old(multiSelect) && hasOnSelect == old(hasOnSelect)
      ensures !multiSelect ==> selectedImages == [url]
    {
      if multiSelect {
        var index := IndexOf(selectedImages, url);
        if index > -1 {
          selectedImages := selectedImages[..index] + selectedImages[index + 1..];
        } else {
          selectedImages := selectedImages + [url];
        }
      } else {
        selectedImages := [url];
      }
    }

    /** Returns what the callback receives, if it is called, and whether the dialog closes. */
    method ConfirmSelection() returns (delivered: Option<Delivery>, closed: bool)
      ensures (delivered, closed) == Confirmed(selectedImages, multiSelect, hasOnSelect)
    {
      if |selectedImages| == 0 {
        return None, false;
      }
      delivered := None;
      if hasOnSelect {
        delivered := Some(if multiSelect then Urls(selectedImages) else SingleUrl(selectedImages[0]));
      }
      closed := true;
    }
  }
}
