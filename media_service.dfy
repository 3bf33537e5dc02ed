/** The media library: upload validation by extension and size, the dated storage path, and
    the owner-scoped listing, lookup and deletion of media records. */
module Media {
  import opened Wrappers
  import opened Strings
  import opened Queries

  // ----- validation -----

  const ImageExtensions: seq<string> := [".jpg", ".jpeg", ".png", ".gif", ".webp"]
  const VideoExtensions: seq<string> := [".mp4", ".webm"]
  const MiB: nat := 1024 * 1024
  const MaxImageSize: nat := 10 * MiB
  const MaxVideoSize: nat := 50 * MiB

  /** The uploaded form file: the client's file name, its content type and its length. */
  datatype FormFile = FormFile(fileName: string, contentType: string, length: nat)

  /** The directory separators `Path.GetExtension` stops at on a Windows host: '\\' and '/'.
      The volume separator ':' does not stop it. */
  predicate IsSeparator(c: char) { c == '/' || c == '\\' }

  /** `Path.GetExtension`: from the last '.' to the end, provided no separator follows that '.'
      and it is not the last character; "" otherwise. */
  function Extension(name: string): (r: string)
    ensures r == "" || (|r| >= 2 && r[0] == '.' && EndsWith(name, r))
    ensures forall i :: 1 <= i < |r| ==> r[i] != '.' && !IsSeparator(r[i])
  {
    if name == [] then ""
    else
      var c := name[|name| - 1];
      if c == '.' || IsSeparator(c) then "" else ExtensionBefore(name[..|name| - 1], [c], name)
  }

  /** Scans `prefix` from its end for the '.' that starts the extension `tail` is the end of. */
  function ExtensionBefore(prefix: string, tail: string, name: string): (r: string)
    requires tail != [] && name == prefix + tail
    requires forall i :: 0 <= i < |tail| ==> tail[i] != '.' && !IsSeparator(tail[i])
    ensures r == "" || (r == "." + tail[..] && EndsWith(name, r)) || (|r| >= 2 && r[0] == '.' && EndsWith(name, r))
    ensures forall i :: 1 <= i < |r| ==> r[i] != '.' && !IsSeparator(r[i])
    decreases |prefix|
  {
    if prefix == [] then ""
    else
      var c := prefix[|prefix| - 1];
      if c == '.' then
        assert name[|name| - |tail| - 1..] == "." + tail;
        "." + tail
      else if IsSeparator(c) then ""
      else
        assert prefix[..|prefix| - 1] + ([c] + tail) == name;
        ExtensionBefore(prefix[..|prefix| - 1], [c] + tail, name)
  }

  predicate IsImage(ext: string) { ext in ImageExtensions }
  predicate IsVideo(ext: string) { ext in VideoExtensions }

  /** The checks `UploadFileAsync` makes before writing anything: a file of positive length,
      an allowed extension (compared lower-cased) and a size within its kind's limit, the limit
      itself included. On success the lower-cased extension is returned. */
  function CheckUpload(file: Option<FormFile>): (r: Result<string>)
    ensures r.Err? ==> r.error == InvalidOperation
    ensures r.Ok? <==>
              && file.Some? && file.value.length != 0
              && var ext := Lower(Extension(file.value.fileName));
              || (IsImage(ext) && file.value.length <= MaxImageSize)
              || (IsVideo(ext) && file.value.length <= MaxVideoSize)
    ensures r.Ok? ==> r.value == Lower(Extension(file.value.fileName))
  {
    if file.None? || file.value.length == 0 then Err(InvalidOperation)
    else
      var ext := Lower(Extension(file.value.fileName));
      if !IsImage(ext) && !IsVideo(ext) then Err(InvalidOperation)
      else if IsImage(ext) && file.value.length > MaxImageSize then Err(InvalidOperation)
      else if IsVideo(ext) && file.value.length > MaxVideoSize then Err(InvalidOperation)
      else Ok(ext)
  }

  /** A file of exactly the limit is accepted and one byte more is refused. */
  lemma SizeLimitsInclusive(name: string, contentType: string)
    ensures Lower(Extension(name)) in ImageExtensions ==>
              && CheckUpload(Some(FormFile(name, contentType, MaxImageSize))).Ok?
              && CheckUpload(Some(FormFile(name, contentType, MaxImageSize + 1))).Err?
    ensures Lower(Extension(name)) in VideoExtensions ==>
              && CheckUpload(Some(FormFile(name, contentType, MaxVideoSize))).Ok?
              && CheckUpload(Some(FormFile(name, contentType, MaxVideoSize + 1))).Err?
  {
    ExtensionKindsDisjoint(Lower(Extension(name)));
  }

  lemma ExtensionKindsDisjoint(ext: string)
    ensures !(IsImage(ext) && IsVideo(ext))
  {
    if IsVideo(ext) {
      assert ext == ".mp4" || ext == ".webm";
      assert ".mp4" != ".jpg" && ".mp4" != ".jpeg" && ".mp4" != ".png" && ".mp4" != ".gif" && ".mp4" != ".webp";
    }
  }

  /** Upper-case extensions are accepted like their lower-case forms. */
  lemma ExtensionCaseIgnored(file: FormFile, other: string)
    requires Lower(Extension(other)) == Lower(Extension(file.fileName))
    ensures CheckUpload(Some(file)) == CheckUpload(Some(file.(fileName := other)))
  {
  }

  // ----- storage path -----

  /** The calendar date of the upload (UTC). */
  datatype Date = Date(year: nat, month: nat, day: nat)

  /** Text of a GUID in its default format: 36 hexadecimal digits and hyphens. */
  predicate IsGuidText(g: string) {
    |g| == 36 && forall i :: 0 <= i < |g| ==> IsDigit(g[i]) || 'a' <= g[i] <= 'f' || g[i] == '-'
  }

  /** The stored relative path: the directories uploads/YYYY/MM/DD and the file name made of a
      fresh GUID and the lower-cased extension, joined with '/'. */
  function StoredPath(date: Date, guid: string, ext: string): string {
    Join(["uploads", NatToString(date.year), Pad2(date.month), Pad2(date.day), guid + ext], "/")
  }

  /** The response's URL. */
  function Url(path: string): string {
    "/" + path
  }

  /** The path has exactly four '/' separators, two-digit month and day directories, and ends
      with the extension; the URL is rooted. */
  lemma StoredPathShape(date: Date, guid: string, ext: string)
    requires IsGuidText(guid) && 1 <= date.month <= 12 && 1 <= date.day <= 31
    requires forall i :: 0 <= i < |ext| ==> !IsSeparator(ext[i])
    ensures var p := StoredPath(date, guid, ext);
            && p == "uploads/" + NatToString(date.year) + "/" + Pad2(date.month) + "/" + Pad2(date.day) + "/" + guid + ext
            && |Pad2(date.month)| == 2 && |Pad2(date.day)| == 2
            && CountChar(p, '/') == 4
            && EndsWith(p, ext)
            && StartsWith(Url(p), "/uploads/")
  {
    var parts := ["uploads", NatToString(date.year), Pad2(date.month), Pad2(date.day), guid + ext];
    PartsWithoutSlash(date, guid, ext);
    JoinSeparatorCount(parts, '/');
    var p := StoredPath(date, guid, ext);
    var tail := NatToString(date.year) + "/" + Pad2(date.month) + "/" + Pad2(date.day) + "/" + guid;
    StoredPathText(date, guid, ext);
    SlashJoined(tail, ext);
    EndsWithAppend("uploads/" + tail, ext);
    StartsWithAppend("/uploads/", tail + ext);
  }

  lemma StoredPathText(date: Date, guid: string, ext: string)
    ensures StoredPath(date, guid, ext)
            == "uploads/" + NatToString(date.year) + "/" + Pad2(date.month) + "/" + Pad2(date.day) + "/" + guid + ext
  {
    JoinFive(["uploads", NatToString(date.year), Pad2(date.month), Pad2(date.day), guid + ext]);
  }

  lemma SlashJoined(tail: string, ext: string)
    ensures "uploads/" + tail + ext == ("uploads/" + tail) + ext
    ensures "/" + ("uploads/" + tail + ext) == "/uploads/" + (tail + ext)
  {
  }

  lemma EndsWithAppend(h: string, t: string)
    ensures EndsWith(h + t, t)
  {
    assert (h + t)[|h + t| - |t|..] == t;
  }

  lemma StartsWithAppend(h: string, t: string)
    ensures StartsWith(h + t, h)
  {
    assert (h + t)[..|h|] == h;
  }

  lemma PartsWithoutSlash(date: Date, guid: string, ext: string)
    requires IsGuidText(guid)
    requires forall i :: 0 <= i < |ext| ==> !IsSeparator(ext[i])
    ensures var parts := ["uploads", NatToString(date.year), Pad2(date.month), Pad2(date.day), guid + ext];
            forall i :: 0 <= i < |parts| ==> '/' !in parts[i]
  {
    var parts := ["uploads", NatToString(date.year), Pad2(date.month), Pad2(date.day), guid + ext];
    forall i | 0 <= i < |parts| ensures '/' !in parts[i] {
      if i == 4 {
        forall k | 0 <= k < |guid + ext| ensures (guid + ext)[k] != '/' {
          if k >= |guid| {
            assert (guid + ext)[k] == ext[k - |guid|];
          }
        }
      } else if i == 1 || i == 2 || i == 3 {
        assert forall k :: 0 <= k < |parts[i]| ==> IsDigit(parts[i][k]);
      } else {
        assert parts[0] == "uploads";
      }
    }
  }

  lemma JoinFive(parts: seq<string>)
    requires |parts| == 5
    ensures Join(parts, "/") == parts[0] + "/" + parts[1] + "/" + parts[2] + "/" + parts[3] + "/" + parts[4]
  {
    assert Join(parts[4..], "/") == parts[4];
    assert Join(parts[3..], "/") == parts[3] + "/" + parts[4];
    assert Join(parts[2..], "/") == parts[2] + "/" + Join(parts[3..], "/");
    assert Join(parts[1..], "/") == parts[1] + "/" + Join(parts[2..], "/");
  }

  /** The extension a successful check returns has no separator, so it cannot leave the dated
      directory. */
  lemma CheckedExtensionStaysInDirectory(file: Option<FormFile>)
    requires CheckUpload(file).Ok?
    ensures forall i :: 0 <= i < |CheckUpload(file).value| ==> !IsSeparator(CheckUpload(file).value[i])
  {
    var e := Extension(file.value.fileName);
    var ext := Lower(e);
    assert CheckUpload(file).value == ext;
    forall i | 0 <= i < |ext| ensures !IsSeparator(ext[i]) {
      assert ext[i] == LowerChar(e[i]);
    }
  }

  // ----- the store -----

  datatype Medium = Medium(filename: string, path: string, mimeType: string, size: int, userId: int, uploadedAt: int)

  datatype MediaResponse = MediaResponse(id: int, filename: string, path: string, mimeType: string,
                                         size: int, userId: int, uploadedAt: int, url: string)

  function ToResponse(id: int, m: Medium): (r: MediaResponse)
    ensures r.url == Url(m.path) && r.id == id && r.path == m.path && r.userId == m.userId
  {
    MediaResponse(id, m.filename, m.path, m.mimeType, m.size, m.userId, m.uploadedAt, Url(m.path))
  }

  /** Page 1 and 20 rows by default. */
  datatype MediaFilter = MediaFilter(keyword: Option<string>, mimeType: Option<string>, page: int, pageSize: int)

  /** The Where clauses of `GetMediaAsync`: the owner, a file-name substring and a MIME prefix. */
  predicate Selected(userId: int, filter: MediaFilter, m: Medium) {
    && m.userId == userId
    && (NullOrEmpty(filter.keyword) || Contains(m.filename, filter.keyword.value))
    && (NullOrEmpty(filter.mimeType) || StartsWith(m.mimeType, filter.mimeType.value))
  }

  function SelectedRow(userId: int, filter: MediaFilter): ((int, Medium)) -> bool {
    (row: (int, Medium)) => Selected(userId, filter, row.1)
  }

  /** Newest first. */
  predicate NewerOrSame(a: (int, Medium), b: (int, Medium)) {
    a.1.uploadedAt >= b.1.uploadedAt
  }

  lemma NewerOrSameTotal()
    ensures TotalPreorder(NewerOrSame)
  {
  }

  /** The selected media in list order, before paging. */
  function Matching(media: map<int, Medium>, userId: int, filter: MediaFilter): seq<(int, Medium)> {
    Query(media, SelectedRow(userId, filter), NewerOrSame)
  }

  /** `GetMediaAsync`: one page of the list and the count of all selected media. */
  function List(media: map<int, Medium>, userId: int, filter: MediaFilter): (r: (seq<MediaResponse>, int))
    ensures r.1 == |Matching(media, userId, filter)|
  {
    var all := Matching(media, userId, filter);
    (Select((row: (int, Medium)) => ToResponse(row.0, row.1), Window(all, filter.page, filter.pageSize)), |all|)
  }

  /** The list before paging holds exactly the caller's media that pass the filters, once
      each, newest first. */
  lemma MatchingSpec(media: map<int, Medium>, userId: int, filter: MediaFilter)
    ensures var r := Matching(media, userId, filter);
            && (forall i :: 0 <= i < |r| ==> r[i].0 in media && r[i].1 == media[r[i].0] && Selected(userId, filter, r[i].1))
            && (forall k :: k in media && Selected(userId, filter, media[k]) ==> (k, media[k]) in r)
            && Distinct(r)
            && (forall i, j :: 0 <= i < j < |r| ==> r[i].1.uploadedAt >= r[j].1.uploadedAt)
  {
    var p := SelectedRow(userId, filter);
    var r := Matching(media, userId, filter);
    assert forall i :: 0 <= i < |r| ==> r[i].0 in media && r[i].1 == media[r[i].0] && p(r[i]) by {
      QuerySound(media, p, NewerOrSame);
    }
    forall i | 0 <= i < |r| ensures Selected(userId, filter, r[i].1) {
      assert p(r[i]);
    }
    forall k | k in media && Selected(userId, filter, media[k]) ensures (k, media[k]) in r {
      assert p((k, media[k]));
      QueryComplete(media, p, NewerOrSame);
    }
    assert Distinct(r) by {
      QueryDistinct(media, p, NewerOrSame);
    }
    forall i, j | 0 <= i < j < |r| ensures r[i].1.uploadedAt >= r[j].1.uploadedAt {
      NewerOrSameTotal();
      QuerySorted(media, p, NewerOrSame);
      assert NewerOrSame(r[i], r[j]);
    }
  }

  /** The total counts every selected medium, whatever page is asked for. */
  lemma TotalCountSpec(media: map<int, Medium>, userId: int, filter: MediaFilter)
    ensures |Matching(media, userId, filter)| == |set k | k in media && Selected(userId, filter, media[k])|
  {
    var ids := set k | k in media && Selected(userId, filter, media[k]);
    QueryCount(media, SelectedRow(userId, filter), NewerOrSame, ids);
  }

  /** A page is the run of the list at the page's offset, so every medium on it is one of the
      caller's. */
  lemma ListOwned(media: map<int, Medium>, userId: int, filter: MediaFilter)
    requires filter.page >= 1 && filter.pageSize >= 0
    ensures var page := List(media, userId, filter).0;
            && |page| <= filter.pageSize
            && forall i :: 0 <= i < |page| ==> page[i].userId == userId && page[i].id in media
  {
    var all := Matching(media, userId, filter);
    MatchingOwned(media, userId, filter);
    WindowOwned(all, userId, filter, media);
    var w := Window(all, filter.page, filter.pageSize);
    var page := List(media, userId, filter).0;
    assert |page| == |w|;
    forall i | 0 <= i < |page| ensures page[i].userId == userId && page[i].id in media {
      assert page[i] == ToResponse(w[i].0, w[i].1);
    }
  }

  lemma MatchingOwned(media: map<int, Medium>, userId: int, filter: MediaFilter)
    ensures var r := Matching(media, userId, filter);
            forall i :: 0 <= i < |r| ==> r[i].0 in media && r[i].1.userId == userId
  {
    QuerySound(media, SelectedRow(userId, filter), NewerOrSame);
  }

  lemma WindowOwned(all: seq<(int, Medium)>, userId: int, filter: MediaFilter, media: map<int, Medium>)
    requires filter.page >= 1 && filter.pageSize >= 0
    requires forall i :: 0 <= i < |all| ==> all[i].0 in media && all[i].1.userId == userId
    ensures var w := Window(all, filter.page, filter.pageSize);
            |w| <= filter.pageSize && forall i :: 0 <= i < |w| ==> w[i].0 in media && w[i].1.userId == userId
  {
    WindowIsSlice(all, filter.page, filter.pageSize);
    var w := Window(all, filter.page, filter.pageSize);
    var off := (filter.page - 1) * filter.pageSize;
    assert off >= 0 by {
      assert filter.page - 1 >= 0;
    }
    forall i | 0 <= i < |w| ensures w[i].0 in media && w[i].1.userId == userId {
      assert w[i] == all[off + i];
    }
  }

  /** `FirstOrDefault(m => m.Id == mediaId && m.UserId == userId)`. */
  predicate Owns(media: map<int, Medium>, id: int, userId: int) {
    id in media && media[id].userId == userId
  }

  class MediaService {
    var media: map<int, Medium>
    var nextId: int

    ghost predicate Valid()
      reads this
    {
      0 < nextId && forall id | id in media :: 0 < id < nextId
    }

    constructor ()
      ensures Valid() && media == map[]
    {
      media := map[];
      nextId := 1;
    }

    /** `UploadFileAsync`: the checks, then one record under the fresh id whose path is built
        from the upload date, the GUID and the extension. Writing the file itself is left out. */
    method UploadFile(userId: int, file: Option<FormFile>, date: Date, guid: string, now: int)
      returns (r: Result<MediaResponse>)
      requires Valid()
      modifies this
      ensures Valid()
      ensures CheckUpload(file).Err? ==> r == Err(InvalidOperation) && unchanged(this)
      ensures CheckUpload(file).Ok? ==>
                var f := file.value;
                var rec := Medium(f.fileName, StoredPath(date, guid, CheckUpload(file).value), f.contentType, f.length, userId, now);
                && old(nextId) !in old(media)
                && media == old(media)[old(nextId) := rec]
                && r == Ok(ToResponse(old(nextId), rec))
    {
      var checked := CheckUpload(file);
      if checked.Err? {
        return Err(InvalidOperation);
      }
      var f := file.value;
      var rec := Medium(f.fileName, StoredPath(date, guid, checked.value), f.contentType, f.length, userId, now);
      var id := nextId;
      media := media[id := rec];
      nextId := nextId + 1;
      r := Ok(ToResponse(id, rec));
    }

    function GetMedia(userId: int, filter: MediaFilter): (seq<MediaResponse>, int)
      reads this
    {
      List(media, userId, filter)
    }

    /** Someone else's medium is `NotFound`, like a missing one. */
    function GetMediaById(id: int, userId: int): (r: Result<MediaResponse>)
      reads this
      ensures r.Err? <==> !Owns(media, id, userId)
      ensures r.Err? ==> r.error == NotFound
      ensures r.Ok? ==> r.value == ToResponse(id, media[id]) && r.value.userId == userId
    {
      if Owns(media, id, userId) then Ok(ToResponse(id, media[id])) else Err(NotFound)
    }

    method DeleteMedia(id: int, userId: int) returns (r: Outcome)
      requires Valid()
      modifies this
      ensures Valid() && nextId == old(nextId)
      ensures r == Fail(NotFound) <==> !Owns(old(media), id, userId)
      ensures r.Fail? ==> unchanged(this)
      ensures r.Pass? ==> media == old(media) - {id}
    {
      if !Owns(media, id, userId) {
        return Fail(NotFound);
      }
      media := media - {id};
      r := Pass;
    }
  }
}
