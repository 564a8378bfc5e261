/** The dataset details page (client/src/pages/Details.jsx): key formatting, the metadata
    entries it lists, the files list, the header fallbacks and the state the page steps through
    while it fetches a dataset's metadata and files. */
module Details {
  import opened Wrappers
  import opened JsStrings
  import opened JsArrays
  import opened JsonValues

  // ---------------------------------------------------------------------------
  // formatKey
  // ---------------------------------------------------------------------------

  /** `s.replace(/([A-Z])/g, " $1")`: a space before every ASCII capital. */
  function SpaceBeforeUpper(s: string): (r: string)
    ensures |s| > 0 ==> |r| > 0 && r[|r| - 1] == s[|s| - 1]
    ensures |s| > 0 && !IsUpper(s[0]) ==> r[0] == s[0]
    ensures forall c :: c in r ==> c == ' ' || c in s
    decreases |s|
  {
    if |s| == 0 then ""
    else
      var rest := SpaceBeforeUpper(s[1..]);
      assert forall c :: c in s[1..] ==> c in s;
      (if IsUpper(s[0]) then [' ', s[0]] else [s[0]]) + rest
  }

  /** `s.replace(/_/g, " ")`. */
  function UnderscoresToSpaces(s: string): (r: string)
    ensures |r| == |s| && '_' !in r
    ensures forall c :: c in r ==> c == ' ' || c in s
  {
    seq(|s|, i requires 0 <= i < |s| => if s[i] == '_' then ' ' else s[i])
  }

  /** `formatKey`: capitals spaced out, then the ends trimmed, then underscores made spaces. No
      underscore survives, and every character is a space or comes from the key. */
  function FormatKey(key: string): (r: string)
    ensures '_' !in r
    ensures forall c :: c in r ==> c == ' ' || c in key
  {
    var spaced := SpaceBeforeUpper(key);
    var trimmed := Trim(spaced);
    assert forall c :: c in trimmed ==> c in spaced by {
      var start := TrimStart(spaced);
      assert trimmed == TrimEnd(start);
      assert forall c :: c in trimmed ==> c in start by {
        assert trimmed == start[..|trimmed|];
      }
      assert forall c :: c in start ==> c in spaced by {
        assert start == spaced[|spaced| - |start|..];
      }
    }
    UnderscoresToSpaces(trimmed)
  }

  /** `s` with its spaces removed; the inverse of `SpaceBeforeUpper` on space-free text. */
  function DropSpaces(s: string): (r: string)
    decreases |s|
  {
    if |s| == 0 then "" else (if s[0] == ' ' then "" else [s[0]]) + DropSpaces(s[1..])
  }

  /** One step of `DropSpaces`. */
  lemma DropSpacesCons(x: char, t: string)
    ensures DropSpaces([x] + t) == (if x == ' ' then "" else [x]) + DropSpaces(t)
  {
    assert ([x] + t)[1..] == t;
  }

  /** Removing the spaces `SpaceBeforeUpper` inserted gives back a space-free string. */
  lemma {:induction false} DropSpacesOfSpaceBeforeUpper(s: string)
    requires ' ' !in s
    ensures DropSpaces(SpaceBeforeUpper(s)) == s
    decreases |s|
  {
    if |s| > 0 {
      var x, rest := s[0], SpaceBeforeUpper(s[1..]);
      assert DropSpaces(rest) == s[1..] by {
        assert ' ' !in s[1..];
        DropSpacesOfSpaceBeforeUpper(s[1..]);
      }
      DropSpacesCons(x, rest);
      if IsUpper(x) {
        assert SpaceBeforeUpper(s) == [' '] + ([x] + rest);
        DropSpacesCons(' ', [x] + rest);
      } else {
        assert SpaceBeforeUpper(s) == [x] + rest;
      }
      assert s == [x] + s[1..];
    }
  }

  /** A character of `r` is a space exactly when a capital follows it. */
  predicate SpacedBeforeCapitals(r: string) {
    forall i :: 0 <= i < |r| ==> (r[i] == ' ' <==> i + 1 < |r| && IsUpper(r[i + 1]))
  }

  /** On a key without spaces, `SpaceBeforeUpper` puts a space exactly in front of each
      capital: a character of the result is a space iff a capital follows it, and the result
      never starts with a capital (`DropSpacesOfSpaceBeforeUpper` removes the spaces again). */
  lemma {:induction false} SpacesBeforeCapitals(s: string)
    requires ' ' !in s
    ensures var r := SpaceBeforeUpper(s);
      && (|r| > 0 ==> !IsUpper(r[0]))
      && SpacedBeforeCapitals(r)
    decreases |s|
  {
    if |s| > 0 {
      var x, rest := s[0], SpaceBeforeUpper(s[1..]);
      assert x != ' ' && ' ' !in s[1..];
      SpacesBeforeCapitals(s[1..]);
      PrependSpaced(x, rest);
      if IsUpper(x) {
        PrependSpaced(' ', [x] + rest);
        assert SpaceBeforeUpper(s) == [' '] + ([x] + rest);
      } else {
        assert SpaceBeforeUpper(s) == [x] + rest;
      }
    }
  }

  /** Putting a character in front keeps `SpacedBeforeCapitals` when the character is a space
      exactly if the text it precedes starts with a capital. */
  lemma PrependSpaced(c: char, rest: string)
    requires SpacedBeforeCapitals(rest)
    requires c == ' ' <==> |rest| > 0 && IsUpper(rest[0])
    ensures SpacedBeforeCapitals([c] + rest)
  {
    var r := [c] + rest;
    forall i | 0 <= i < |r|
      ensures r[i] == ' ' <==> i + 1 < |r| && IsUpper(r[i + 1])
    {
      if i > 0 {
        assert r[i] == rest[i - 1];
        assert rest[i - 1] == ' ' <==> i < |rest| && IsUpper(rest[i]);
      }
      if i + 1 < |r| {
        assert r[i + 1] == rest[i];
      }
    }
  }

  /** `formatKey` on a key without white space at either end: the spaced-out key, less the
      space `trim` removes in front of a leading capital ("StudyTitle" gives "Study Title"),
      with each underscore made a space ("study_Title" gives "study  Title"). */
  lemma FormatKeyUnpadded(key: string)
    requires key == "" || (!IsJsSpace(key[0]) && !IsJsSpace(key[|key| - 1]))
    ensures var spaced := SpaceBeforeUpper(key);
      FormatKey(key) == UnderscoresToSpaces(if |key| > 0 && IsUpper(key[0]) then spaced[1..] else spaced)
  {
    TrimOfSpaced(key);
  }

  /** On a key without white space at either end, only a space inserted before a leading
      capital is trimmed. */
  lemma TrimOfSpaced(key: string)
    requires key == "" || (!IsJsSpace(key[0]) && !IsJsSpace(key[|key| - 1]))
    ensures var spaced := SpaceBeforeUpper(key);
      Trim(spaced) == if |key| > 0 && IsUpper(key[0]) then spaced[1..] else spaced
  {
    if |key| > 0 && IsUpper(key[0]) {
      TrimOfCapitalised(key);
    } else if |key| > 0 {
      var spaced := SpaceBeforeUpper(key);
      assert spaced[0] == key[0] && spaced[|spaced| - 1] == key[|key| - 1];
      TrimOfUnpadded(spaced);
    }
  }

  /** The space `SpaceBeforeUpper` puts before a leading capital is the only one trimmed. */
  lemma TrimOfCapitalised(key: string)
    requires |key| > 0 && IsUpper(key[0]) && !IsJsSpace(key[|key| - 1])
    ensures Trim(SpaceBeforeUpper(key)) == SpaceBeforeUpper(key)[1..]
  {
    var spaced := SpaceBeforeUpper(key);
    assert spaced == [' ', key[0]] + SpaceBeforeUpper(key[1..]);
    var t := spaced[1..];
    assert spaced == [' '] + t;
    assert t[0] == key[0] && t[|t| - 1] == key[|key| - 1];
    TrimOfLeadingSpace(t);
  }

  /** Trimming one space off the front of an unpadded string gives the string back. */
  lemma TrimOfLeadingSpace(t: string)
    requires |t| > 0 && !IsJsSpace(t[0]) && !IsJsSpace(t[|t| - 1])
    ensures Trim([' '] + t) == t
  {
    assert ([' '] + t)[1..] == t;
    assert TrimStart([' '] + t) == TrimStart(t);
    TrimOfUnpadded(t);
  }

  /** Trimming a string that neither starts nor ends with white space changes nothing. */
  lemma TrimOfUnpadded(s: string)
    requires s == "" || (!IsJsSpace(s[0]) && !IsJsSpace(s[|s| - 1]))
    ensures Trim(s) == s
  {
    assert TrimStart(s) == s;
  }

  lemma UnderscoresToSpacesWithout(s: string)
    requires '_' !in s
    ensures UnderscoresToSpaces(s) == s
  {
  }

  /** A key of letters and digits (no white space, no underscore) that does not start with a
      capital is only spaced out (trimming and the underscore rule do nothing to it), and
      removing the spaces gives the key back. */
  lemma FormatKeyRoundTrip(key: string)
    requires forall k :: 0 <= k < |key| ==> !IsJsSpace(key[k]) && key[k] != '_'
    requires key == "" || !IsUpper(key[0])
    ensures FormatKey(key) == SpaceBeforeUpper(key)
    ensures DropSpaces(FormatKey(key)) == key
  {
    var s := SpaceBeforeUpper(key);
    assert ' ' !in key && '_' !in key by {
      forall i | 0 <= i < |key|
        ensures key[i] != ' ' && key[i] != '_'
      {
        assert !IsJsSpace(key[i]);
      }
    }
    assert s == "" || (!IsJsSpace(s[0]) && !IsJsSpace(s[|s| - 1]));
    TrimOfUnpadded(s);
    assert '_' !in s;
    UnderscoresToSpacesWithout(s);
    DropSpacesOfSpaceBeforeUpper(key);
  }

  /** On a key without capitals and without white space at either end (such as "study title"
      or "_id"), only the underscores turn into spaces; trimming comes first, so a leading or
      trailing underscore survives as a space ("_id" gives " id"). */
  lemma FormatKeySnakeCase(key: string)
    requires forall k :: 0 <= k < |key| ==> !IsUpper(key[k])
    requires key == "" || (!IsJsSpace(key[0]) && !IsJsSpace(key[|key| - 1]))
    ensures FormatKey(key) == UnderscoresToSpaces(key)
  {
    NoUpperSpaceBeforeUpper(key);
    TrimOfUnpadded(key);
  }

  lemma {:induction false} NoUpperSpaceBeforeUpper(s: string)
    requires forall k :: 0 <= k < |s| ==> !IsUpper(s[k])
    ensures SpaceBeforeUpper(s) == s
    decreases |s|
  {
    if |s| > 0 {
      NoUpperSpaceBeforeUpper(s[1..]);
      assert s == [s[0]] + s[1..];
    }
  }

  // ---------------------------------------------------------------------------
  // MetadataList
  // ---------------------------------------------------------------------------

  /** The keys the page shows in its header rather than in the metadata block. */
  const ExcludeFromBlock: seq<string> := ["study publication title", "study publication author list", "study description", "name"]

  /** The entry test: the key is not excluded and the value is not an object, array or null. */
  predicate Listed(entry: (string, Json), excludeKeys: seq<string>) {
    entry.0 !in excludeKeys && !IsObjectType(entry.1)
  }

  /** `metadata.data || metadata` on a non-null value. */
  function MetadataData(metadata: Json): Json
    requires !metadata.Null?
  {
    Or(Get(metadata, "data").value, Some(metadata)).value
  }

  /** The entries the list shows, in order: none when the data is falsy or not an object. */
  function ShownEntries(metadata: Json, excludeKeys: seq<string>): (r: seq<(string, Json)>)
    requires !metadata.Null?
    ensures !Truthy(MetadataData(metadata)) || !IsObjectType(MetadataData(metadata)) ==> r == []
    ensures |r| <= |Entries(MetadataData(metadata))|
    ensures forall k :: 0 <= k < |r| ==> Listed(r[k], excludeKeys)
  {
    var data := MetadataData(metadata);
    if !Truthy(data) || !IsObjectType(data) then []
    else Filter(Entries(data), e => Listed(e, excludeKeys))
  }

  /** `String(value)` for the values that pass the entry test. */
  function ValueText(v: Json): string
    requires !IsObjectType(v)
  {
    match v
    case Bool(b) => if b then "true" else "false"
    case Num(n) => IntToString(n)
    case Str(s) => s
  }

  datatype MetadataView =
    | NoMetadata                                       // "No additional metadata available."
    | MetadataTable(items: seq<(string, string)>)       // formatted key, value text

  /** The component; reading `metadata.data` throws on null. */
  function MetadataList(metadata: Json, excludeKeys: seq<string>): (r: Result<MetadataView, JsError>)
    ensures r.Failure? <==> metadata.Null?
    ensures r.Success? ==> (r.value.NoMetadata? <==> |ShownEntries(metadata, excludeKeys)| == 0)
    ensures r.Success? && r.value.MetadataTable? ==>
      var shown := ShownEntries(metadata, excludeKeys);
      && |r.value.items| == |shown|
      && forall k :: 0 <= k < |shown| ==>
           r.value.items[k].0 == FormatKey(shown[k].0) && r.value.items[k].1 == ValueText(shown[k].1)
  {
    if metadata.Null? then Failure(ReadOfNullish("data", true))
    else
      var shown := ShownEntries(metadata, excludeKeys);
      if |shown| == 0 then Success(NoMetadata)
      else
        Success(MetadataTable(seq(|shown|, k requires 0 <= k < |shown| => (FormatKey(shown[k].0), ValueText(shown[k].1)))))
  }

  /** An entry is shown exactly when the data holds it, its key is not excluded and its value
      is not an object (so arrays are never shown); the shown entries keep the data's order. */
  lemma ShownEntriesCharacterised(metadata: Json, excludeKeys: seq<string>, entry: (string, Json))
    requires !metadata.Null?
    ensures var data := MetadataData(metadata);
      entry in ShownEntries(metadata, excludeKeys) <==>
        Truthy(data) && IsObjectType(data) && entry in Entries(data) && Listed(entry, excludeKeys)
    ensures entry in ShownEntries(metadata, excludeKeys) ==> !entry.1.Arr? && entry.0 !in excludeKeys
    ensures IsSubsequence(ShownEntries(metadata, excludeKeys), Entries(MetadataData(metadata)))
  {
    var data := MetadataData(metadata);
    if Truthy(data) && IsObjectType(data) {
      FilterMembership(Entries(data), e => Listed(e, excludeKeys), entry);
      FilterIsSubsequence(Entries(data), e => Listed(e, excludeKeys));
    } else {
      EmptyIsSubsequence(Entries(data));
    }
  }

  lemma EmptyIsSubsequence<T>(s: seq<T>)
    ensures IsSubsequence([], s)
  {
  }

  // ---------------------------------------------------------------------------
  // Files list
  // ---------------------------------------------------------------------------

  /** One entry of the files list: `file_name`, `url`, `rest_url` and `type`. */
  datatype FileEntry = FileEntry(fileName: string, url: Option<Json>, restUrl: Option<Json>, fileType: string)

  /** `filesJson?.[osdrId]?.files`. */
  function RawFiles(filesJson: Json, osdrId: string): Option<Json> {
    ReadOptional(ReadOptional(Some(filesJson), osdrId), "files")
  }

  /** `Object.entries(rawFiles).map(...)`: reading `URL` of a null details value throws. */
  function FileEntries(entries: seq<(string, Json)>): (r: Result<seq<FileEntry>, JsError>)
    ensures r.Success? ==> |r.value| == |entries|
    ensures r.Success? ==> forall k :: 0 <= k < |entries| ==>
      && r.value[k].fileName == entries[k].0
      && r.value[k].fileType == LastPiece(entries[k].0, '.')
      && r.value[k].url == Lookup(Entries(entries[k].1), "URL")
      && r.value[k].restUrl == Lookup(Entries(entries[k].1), "REST_URL")
    ensures r.Failure? <==> exists k :: 0 <= k < |entries| && entries[k].1 == Null
    decreases |entries|
  {
    if |entries| == 0 then Success([])
    else
      assert forall k :: 1 <= k < |entries| ==> entries[k] == entries[1..][k - 1];
      var (fileName, fileDetails) := entries[0];
      match Get(fileDetails, "URL")
      case Failure(e) => Failure(e)
      case Success(url) =>
        var restUrl := Get(fileDetails, "REST_URL").value;
        match FileEntries(entries[1..])
        case Failure(e) => Failure(e)
        case Success(rest) => Success([FileEntry(fileName, url, restUrl, LastPiece(fileName, '.'))] + rest)
  }

  /** The files list: empty when there is no truthy files object. */
  function FilesArray(filesJson: Json, osdrId: string): (r: Result<seq<FileEntry>, JsError>)
    ensures !Present(RawFiles(filesJson, osdrId)) ==> r == Success([])
    ensures Present(RawFiles(filesJson, osdrId)) ==> r == FileEntries(Entries(RawFiles(filesJson, osdrId).value))
  {
    var rawFiles := RawFiles(filesJson, osdrId);
    if Present(rawFiles) then FileEntries(Entries(rawFiles.value)) else Success([])
  }

  /** The type is the text after the last '.', or the whole name when it has none. */
  lemma FileType(name: string, stem: string, extension: string)
    ensures '.' !in name ==> LastPiece(name, '.') == name
    ensures '.' !in extension ==> LastPiece(stem + "." + extension, '.') == extension
  {
    if '.' !in name {
      SplitWithoutSeparator(name, '.');
    }
    if '.' !in extension {
      assert stem + "." + extension == stem + ['.'] + extension;
      SplitAtSeparator(stem, extension, '.');
      SplitWithoutSeparator(extension, '.');
    }
  }

  // ---------------------------------------------------------------------------
  // Header
  // ---------------------------------------------------------------------------

  /** `metadata?.[osdrId]?.metadata || metadata`. */
  function CoreMetadata(metadata: Json, osdrId: string): (r: Json)
    ensures Present(ReadOptional(ReadOptional(Some(metadata), osdrId), "metadata")) ==>
      Some(r) == ReadOptional(ReadOptional(Some(metadata), osdrId), "metadata")
    ensures !Present(ReadOptional(ReadOptional(Some(metadata), osdrId), "metadata")) ==> r == metadata
  {
    Or(ReadOptional(ReadOptional(Some(metadata), osdrId), "metadata"), Some(metadata)).value
  }

  datatype HeaderView = HeaderView(title: Json, authors: Json, description: Json)

  /** The header fields with their fallbacks; reading them throws when the core metadata is null. */
  function Header(core: Json, osdrId: string): (r: Result<HeaderView, JsError>)
    ensures r.Failure? <==> core.Null?
    ensures r.Success? ==>
      && Some(r.value.title) == Or(Lookup(Entries(core), "study publication title"), Some(Str("Dataset: " + osdrId)))
      && Some(r.value.authors) == Or(Lookup(Entries(core), "study publication author list"), Some(Str("N/A")))
      && Some(r.value.description) == Or(Lookup(Entries(core), "study description"), Some(Str("No study description provided.")))
      && Truthy(r.value.title) && Truthy(r.value.authors) && Truthy(r.value.description)
  {
    if core.Null? then Failure(ReadOfNullish("study publication title", true))
    else
      var md := Entries(core);
      Success(HeaderView(
        Or(Lookup(md, "study publication title"), Some(Str("Dataset: " + osdrId))).value,
        Or(Lookup(md, "study publication author list"), Some(Str("N/A"))).value,
        Or(Lookup(md, "study description"), Some(Str("No study description provided."))).value))
  }

  // ---------------------------------------------------------------------------
  // The fetch and the page state
  // ---------------------------------------------------------------------------

  /** A fetch response: `ok`, `status`, and what `json()` gives (a parse error's message on
      failure). */
  datatype HttpResponse = HttpResponse(ok: bool, status: int, body: Result<Json, string>)

  function ErrorText(message: string): string {
    "Could not load dataset details. Error: " + message + "."
  }

  function StatusMessage(metadataStatus: int, filesStatus: int): string {
    "Failed to fetch data: Metadata Status " + IntToString(metadataStatus) + ", Files Status " + IntToString(filesStatus)
  }

  /** What one attempt sets: the new metadata and files when their setters run, and the error. */
  datatype Attempt = Attempt(metadata: Option<Json>, files: Option<seq<FileEntry>>, error: Option<string>)

  /** The outcome of the `try` block for the two responses (`Failure` when `Promise.all`
      rejects). The metadata is set only once both bodies parsed; the files only when they could
      be read. */
  function AttemptOf(osdrId: string, fetched: Result<(HttpResponse, HttpResponse), string>): (r: Attempt)
    ensures fetched.Failure? ==> r == Attempt(None, None, Some(ErrorText(fetched.error)))
    ensures r.error.None? <==> r.files.Some?
    ensures r.files.Some? ==> r.metadata.Some?
  {
    match fetched
    case Failure(m) => Attempt(None, None, Some(ErrorText(m)))
    case Success((mr, fr)) =>
      if !mr.ok || !fr.ok then Attempt(None, None, Some(ErrorText(StatusMessage(mr.status, fr.status))))
      else
        match mr.body
        case Failure(m) => Attempt(None, None, Some(ErrorText(m)))
        case Success(metadataJson) =>
          match fr.body
          case Failure(m) => Attempt(None, None, Some(ErrorText(m)))
          case Success(filesJson) =>
            match FilesArray(filesJson, osdrId)
            case Failure(e) => Attempt(Some(metadataJson), None, Some(ErrorText(Message(e))))
            case Success(files) => Attempt(Some(metadataJson), Some(files), None)
  }

  /** An attempt records no error exactly when both responses are ok, both bodies parse and the
      files can be read; it then sets both the metadata and the files. A response that is not ok
      records the two statuses and sets nothing. */
  lemma AttemptOutcomes(osdrId: string, fetched: Result<(HttpResponse, HttpResponse), string>)
    ensures var a := AttemptOf(osdrId, fetched);
      a.error.None? <==>
        && fetched.Success?
        && fetched.value.0.ok && fetched.value.1.ok
        && fetched.value.0.body.Success? && fetched.value.1.body.Success?
        && FilesArray(fetched.value.1.body.value, osdrId).Success?
    ensures var a := AttemptOf(osdrId, fetched);
      a.error.None? ==>
        a.metadata == Some(fetched.value.0.body.value) && a.files == Some(FilesArray(fetched.value.1.body.value, osdrId).value)
    ensures var a := AttemptOf(osdrId, fetched);
      fetched.Success? && (!fetched.value.0.ok || !fetched.value.1.ok) ==>
        a == Attempt(None, None, Some(ErrorText(StatusMessage(fetched.value.0.status, fetched.value.1.status))))
    ensures var a := AttemptOf(osdrId, fetched);
      a.error.Some? ==> a.files.None? && |a.error.value| > 0
  {
  }

  /** What the page renders. */
  datatype PageView =
    | LoadingPage
    | ErrorPage(message: string)
    | DetailsPage(header: Result<HeaderView, JsError>, metadataBlock: Result<MetadataView, JsError>, files: seq<FileEntry>)

  /** The render: the loader while loading, the error when there is one, otherwise the header,
      the metadata block over the core metadata and the files. */
  function View(osdrId: string, metadata: Json, files: seq<FileEntry>, loading: bool, error: Option<string>): (r: PageView)
    ensures loading <==> r.LoadingPage?
    ensures !loading && error.Some? && error.value != "" ==> r == ErrorPage(error.value)
    ensures !loading && !(error.Some? && error.value != "") ==>
      && r.DetailsPage? && r.files == files
      && r.header == Header(CoreMetadata(metadata, osdrId), osdrId)
      && r.metadataBlock == MetadataList(CoreMetadata(metadata, osdrId), ExcludeFromBlock)
  {
    if loading then LoadingPage
    else if error.Some? && error.value != "" then ErrorPage(error.value)
    else
      var core := CoreMetadata(metadata, osdrId);
      DetailsPage(Header(core, osdrId), MetadataList(core, ExcludeFromBlock), files)
  }

  /** The OSDRDetailsPage component's state. */
  class OsdrDetailsPage {
    var metadata: Json
    var files: seq<FileEntry>
    var loading: bool
    var error: Option<string>

    /** The initial `useState` values. */
    constructor ()
      ensures metadata == Null && files == [] && loading && error.None?
    {
      metadata := Null;
      files := [];
      loading := true;
      error := None;
    }

    function Render(osdrId: string): PageView
      reads this
    {
      View(osdrId, metadata, files, loading, error)
    }

    /** The fetch effect for route parameter `osdrId`; it does not run for an empty id. Otherwise
        it clears the error, runs the attempt and, in `finally`, always leaves the loading state. */
    method FetchDatasetDetails(osdrId: string, fetched: Result<(HttpResponse, HttpResponse), string>)
      modifies this
      ensures osdrId == "" ==> metadata == old(metadata) && files == old(files) && loading == old(loading) && error == old(error)
      ensures osdrId != "" ==>
        var a := AttemptOf(osdrId, fetched);
        && !loading
        && error == a.error
        && metadata == (if a.metadata.Some? then a.metadata.value else old(metadata))
        && files == (if a.files.Some? then a.files.value else old(files))
    {
      if osdrId == "" {
        return;
      }
      loading := true;
      error := None;
      match fetched {
        case Failure(m) =>
          error := Some(ErrorText(m));
        case Success((mr, fr)) =>
          if !mr.ok || !fr.ok {
            error := Some(ErrorText(StatusMessage(mr.status, fr.status)));
          } else if mr.body.Failure? {
            error := Some(ErrorText(mr.body.error));
          } else if fr.body.Failure? {
            error := Some(ErrorText(fr.body.error));
          } else {
            metadata := mr.body.value;
            var filesArray := FilesArray(fr.body.value, osdrId);
            if filesArray.Success? {
              files := filesArray.value;
            } else {
              error := Some(ErrorText(Message(filesArray.error)));
            }
          }
      }
      loading := false;
    }
  }

  /** After a completed attempt the page shows the error page exactly when the attempt failed,
      and otherwise the details of the fetched metadata and files. */
  lemma ViewAfterAttempt(osdrId: string, fetched: Result<(HttpResponse, HttpResponse), string>, oldMetadata: Json, oldFiles: seq<FileEntry>)
    requires osdrId != ""
    ensures var a := AttemptOf(osdrId, fetched);
      var v := View(osdrId, if a.metadata.Some? then a.metadata.value else oldMetadata,
                    if a.files.Some? then a.files.value else oldFiles, false, a.error);
      && (a.error.Some? <==> v.ErrorPage?)
      && (a.error.None? ==>
            && v.DetailsPage? && a.files == Some(v.files)
            && a.metadata.Some? && v.header == Header(CoreMetadata(a.metadata.value, osdrId), osdrId))
  {
    AttemptOutcomes(osdrId, fetched);
  }
}
