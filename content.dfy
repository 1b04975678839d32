/** `PlayingContent`: what the desktop player is currently playing, either a
    loose SWF addressed by its URL or an entry inside a loaded bundle, and
    how a URL requested by that content is resolved to bytes. */
module Content {
  import opened Wrappers
  import opened Foreign

  datatype PlayingContent =
    | DirectFile(url: Url)
    | Bundle(url: Url, bundle: Foreign.Bundle)

  /** The message of the error returned when a URL has no file-path form. */
  const NoFilePathMessage := "Could not turn url into file path"

  /** The URL playback starts from: the stored one for a loose file, the
      bundle's own reported entry URL for a bundle. */
  function InitialSwfUrl(content: PlayingContent): (u: Url) {
    match content
    case DirectFile(url) => url
    case Bundle(_, bundle) => bundle.information.url
  }

  /** The display name; for a loose file it is derived from its URL by
      `readableName`, which stands for `url_to_readable_name`. */
  function Name(content: PlayingContent, readableName: Url -> string): (name: string) {
    match content
    case DirectFile(url) => readableName(url)
    case Bundle(_, bundle) => bundle.information.name
  }

  /** The `Other` error that wraps a failed segment decoding. */
  function DecodingFailed(error: DecodeError): (e: IoError) {
    Custom(Other, Undecodable(error))
  }

  /** The bundle path built from `segs`, one segment after another, left to
      right, as the loop does: each step decodes the next segment and
      appends a separator and the decoded text, and the first segment that
      does not decode ends the walk with its error. */
  function SegmentsPath(segs: seq<string>, decode: string -> Result<string, DecodeError>): (r: Result<string, IoError>)
    decreases |segs|
  {
    if segs == [] then Success("")
    else
      match SegmentsPath(segs[..|segs| - 1], decode)
      case Failure(e) => Failure(e)
      case Success(prefix) =>
        match decode(segs[|segs| - 1])
        case Failure(de) => Failure(DecodingFailed(de))
        case Success(d) => Success(prefix + "/" + d)
  }

  /** What becomes of a target URL in a bundle before any content is read:
      the internal path handed to `read_content`, or the error that stops
      the call first. */
  function BundlePath(url: Url, decode: string -> Result<string, DecodeError>): (r: Result<string, IoError>) {
    if url.scheme != "file" then Failure(Simple(NotFound))
    else
      match url.segments
      case None => Success("")
      case Some(segs) => SegmentsPath(segs, decode)
  }

  /** The outcome of `get_local_file(url, openFile)` on `content`. */
  function LocalFile(
    content: PlayingContent, url: Url, lib: UrlLib,
    openFile: FilePath -> Result<File, IoError>): (r: Result<Bytes, IoError>)
  {
    match content
    case DirectFile(_) =>
      (match lib.toFilePath(url)
       case None => Failure(Custom(Other, Message(NoFilePathMessage)))
       case Some(path) =>
         match openFile(path)
         case Failure(e) => Failure(e)
         case Success(file) => file.readToEnd)
    case Bundle(_, bundle) =>
      match BundlePath(url, lib.decode)
      case Failure(e) => Failure(e)
      case Success(path) => bundle.source.readContent(path)
  }

  /** `get_local_file`, step by step: for a loose file, convert the URL to
      a path, open it and read it whole into an empty buffer; for a bundle,
      check the scheme, grow the internal path segment by segment and hand
      it to the bundle's content source. */
  method GetLocalFile(
    content: PlayingContent, url: Url, lib: UrlLib,
    openFile: FilePath -> Result<File, IoError>) returns (r: Result<Bytes, IoError>)
    ensures r == LocalFile(content, url, lib, openFile)
  {
    match content
    case DirectFile(_) =>
      var converted := lib.toFilePath(url);
      if converted.None? {
        return Failure(Custom(Other, Message(NoFilePathMessage)));
      }
      var path := converted.value;
      var result: Bytes := [];
      var file :- openFile(path);
      var contents :- file.readToEnd;
      result := result + contents;
      assert result == contents;
      return Success(result);
    case Bundle(_, bundle) =>
      if url.scheme != "file" {
        return Failure(Simple(NotFound));
      }
      var path := "";
      if url.segments.Some? {
        var segments := url.segments.value;
        var i := 0;
        while i < |segments|
          invariant 0 <= i <= |segments|
          invariant SegmentsPath(segments[..i], lib.decode) == Success(path)
        {
          var decoded := lib.decode(segments[i]);
          if decoded.Failure? {
            assert segments[..i + 1][..i] == segments[..i];
            FailureIsFinal(segments, i + 1, lib.decode);
            return Failure(DecodingFailed(decoded.error));
          }
          assert segments[..i + 1][..i] == segments[..i];
          path := path + "/";
          path := path + decoded.value;
          i := i + 1;
        }
        assert segments[..i] == segments;
      }
      r := bundle.source.readContent(path);
  }

  // ---------------------------------------------------------------------
  // A reference description of the bundle path

  /** Every segment decodes. */
  ghost predicate AllDecode(segs: seq<string>, decode: string -> Result<string, DecodeError>) {
    forall i :: 0 <= i < |segs| ==> decode(segs[i]).Success?
  }

  /** The decoded segments, in order. */
  ghost function Decoded(segs: seq<string>, decode: string -> Result<string, DecodeError>): (parts: seq<string>)
    requires AllDecode(segs, decode)
    ensures |parts| == |segs|
    ensures forall i :: 0 <= i < |segs| ==> Success(parts[i]) == decode(segs[i])
  {
    seq(|segs|, i requires 0 <= i < |segs| => decode(segs[i]).value)
  }

  /** `/p0/p1/.../pn`: each part preceded by one separator; empty for no parts. */
  ghost function Joined(parts: seq<string>): (path: string) {
    if parts == [] then "" else "/" + parts[0] + Joined(parts[1..])
  }

  lemma {:induction false} JoinedAppend(parts: seq<string>, last: string)
    ensures Joined(parts + [last]) == Joined(parts) + "/" + last
  {
    if parts != [] {
      assert (parts + [last])[1..] == parts[1..] + [last];
      JoinedAppend(parts[1..], last);
    }
  }

  /** A joined path holds at least one separator per part and, when there
      is a part, starts with a separator. */
  lemma {:induction false} JoinedShape(parts: seq<string>)
    ensures |Joined(parts)| >= |parts|
    ensures parts != [] ==> Joined(parts)[0] == '/'
  {
    if parts != [] {
      JoinedShape(parts[1..]);
    }
  }

  /** Once a prefix of the segments fails to decode, nothing after it
      changes the outcome. */
  lemma {:induction false} FailureIsFinal(segs: seq<string>, k: nat, decode: string -> Result<string, DecodeError>)
    requires k <= |segs|
    requires SegmentsPath(segs[..k], decode).Failure?
    ensures SegmentsPath(segs, decode) == SegmentsPath(segs[..k], decode)
    decreases |segs| - k
  {
    if k < |segs| {
      var init := segs[..|segs| - 1];
      assert init[..k] == segs[..k];
      FailureIsFinal(init, k, decode);
    } else {
      assert segs[..k] == segs;
    }
  }

  /** When every segment decodes, the path is the decoded segments joined,
      in order, each after a separator. */
  lemma {:induction false} PathOfDecodableSegments(segs: seq<string>, decode: string -> Result<string, DecodeError>)
    requires AllDecode(segs, decode)
    ensures SegmentsPath(segs, decode) == Success(Joined(Decoded(segs, decode)))
  {
    if segs != [] {
      var n := |segs|;
      var init := segs[..n - 1];
      assert forall i :: 0 <= i < |init| ==> init[i] == segs[i];
      assert AllDecode(init, decode);
      PathOfDecodableSegments(init, decode);
      var last := decode(segs[n - 1]).value;
      assert Decoded(segs, decode) == Decoded(init, decode) + [last];
      JoinedAppend(Decoded(init, decode), last);
    }
  }

  /** Building the path succeeds exactly when every segment decodes. */
  lemma {:induction false} SegmentsPathSucceedsIff(segs: seq<string>, decode: string -> Result<string, DecodeError>)
    ensures SegmentsPath(segs, decode).Success? <==> AllDecode(segs, decode)
  {
    if AllDecode(segs, decode) {
      PathOfDecodableSegments(segs, decode);
    } else if segs != [] {
      var n := |segs|;
      var init := segs[..n - 1];
      SegmentsPathSucceedsIff(init, decode);
      if AllDecode(init, decode) {
        assert !decode(segs[n - 1]).Success? by {
          forall i | 0 <= i < n - 1 ensures decode(segs[i]).Success? {
            assert init[i] == segs[i];
          }
        }
      }
    }
  }

  /** The first segment that fails to decode decides the error, an `Other`
      wrapping that segment's decode error; segments after it are never
      looked at. */
  lemma {:induction false} FirstUndecodableSegment(segs: seq<string>, k: nat, decode: string -> Result<string, DecodeError>)
    requires k < |segs|
    requires forall j :: 0 <= j < k ==> decode(segs[j]).Success?
    requires decode(segs[k]).Failure?
    ensures SegmentsPath(segs, decode) == Failure(DecodingFailed(decode(segs[k]).error))
    ensures forall other :: k < |other| && other[..k + 1] == segs[..k + 1] ==>
      SegmentsPath(other, decode) == SegmentsPath(segs, decode)
  {
    var upTo := segs[..k + 1];
    assert upTo[..k] == segs[..k];
    assert AllDecode(segs[..k], decode) by {
      forall j | 0 <= j < k ensures decode(segs[..k][j]).Success? {
        assert segs[..k][j] == segs[j];
      }
    }
    PathOfDecodableSegments(segs[..k], decode);
    FailureIsFinal(segs, k + 1, decode);
    forall other | k < |other| && other[..k + 1] == upTo
      ensures SegmentsPath(other, decode) == SegmentsPath(segs, decode)
    {
      FailureIsFinal(other, k + 1, decode);
    }
  }

  // ---------------------------------------------------------------------
  // Properties of the accessors

  /** A loose file starts from its own URL; a bundle from the URL its
      metadata reports, whatever URL the content value stores. */
  lemma InitialSwfUrlSource(content: PlayingContent, other: Url)
    ensures content.DirectFile? ==> InitialSwfUrl(content) == content.url
    ensures content.Bundle? ==>
      InitialSwfUrl(content) == content.bundle.information.url &&
      InitialSwfUrl(Bundle(other, content.bundle)) == InitialSwfUrl(content)
  {
  }

  /** A bundle's name is its metadata name, verbatim; a loose file's is
      derived from its stored URL. */
  lemma NameSource(content: PlayingContent, readableName: Url -> string)
    ensures content.DirectFile? ==> Name(content, readableName) == readableName(content.url)
    ensures content.Bundle? ==> Name(content, readableName) == content.bundle.information.name
  {
  }

  // ---------------------------------------------------------------------
  // Properties of get_local_file

  /** The URL stored in the content value never affects what is read:
      of the content value, only its variant and its bundle matter. */
  lemma LocalFileIgnoresStoredUrl(
    content: PlayingContent, other: Url, url: Url, lib: UrlLib,
    openFile: FilePath -> Result<File, IoError>)
    ensures LocalFile(content.(url := other), url, lib, openFile) == LocalFile(content, url, lib, openFile)
  {
  }

  /** Loose file: an unconvertible URL is an `Other` error whatever the
      opener; a failed open or read is passed on as it is; otherwise the
      result is the whole file. */
  lemma DirectFileOutcomes(
    stored: Url, url: Url, lib: UrlLib, openFile: FilePath -> Result<File, IoError>)
    ensures lib.toFilePath(url).None? ==>
      LocalFile(DirectFile(stored), url, lib, openFile) == Failure(Custom(Other, Message(NoFilePathMessage)))
    ensures lib.toFilePath(url).Some? && openFile(lib.toFilePath(url).value).Failure? ==>
      LocalFile(DirectFile(stored), url, lib, openFile) == Failure(openFile(lib.toFilePath(url).value).error)
    ensures lib.toFilePath(url).Some? && openFile(lib.toFilePath(url).value).Success? ==>
      LocalFile(DirectFile(stored), url, lib, openFile) == openFile(lib.toFilePath(url).value).value.readToEnd
  {
  }

  /** Bundle: a target URL whose scheme is not exactly `file` is `NotFound`
      for every bundle, so its content source plays no part. */
  lemma BundleRejectsNonFileScheme(
    stored: Url, bundle: Foreign.Bundle, url: Url, lib: UrlLib,
    openFile: FilePath -> Result<File, IoError>)
    requires url.scheme != "file"
    ensures BundlePath(url, lib.decode) == Failure(Simple(NotFound))
    ensures LocalFile(Bundle(stored, bundle), url, lib, openFile) == Failure(Simple(NotFound))
  {
  }

  /** Bundle: a `file` URL without path segments reads the empty path. */
  lemma BundleWithoutSegmentsReadsEmptyPath(
    stored: Url, bundle: Foreign.Bundle, url: Url, lib: UrlLib,
    openFile: FilePath -> Result<File, IoError>)
    requires url.scheme == "file" && url.segments.None?
    ensures BundlePath(url, lib.decode) == Success("")
    ensures LocalFile(Bundle(stored, bundle), url, lib, openFile) == bundle.source.readContent("")
  {
  }

  /** Bundle: once a path is built, the result is exactly what the content
      source returns for it, success or failure. */
  lemma BundleDelegatesToContentSource(
    stored: Url, bundle: Foreign.Bundle, url: Url, lib: UrlLib,
    openFile: FilePath -> Result<File, IoError>)
    requires BundlePath(url, lib.decode).Success?
    ensures LocalFile(Bundle(stored, bundle), url, lib, openFile)
         == bundle.source.readContent(BundlePath(url, lib.decode).value)
  {
  }

  /** Bundle: for a `file` URL whose segments all decode, the path read is
      `/` followed by each decoded segment, in order, and it starts with a
      separator whenever there is a segment. */
  lemma {:induction false} BundleReadsJoinedDecodedSegments(
    stored: Url, bundle: Foreign.Bundle, url: Url, lib: UrlLib,
    openFile: FilePath -> Result<File, IoError>)
    requires url.scheme == "file" && url.segments.Some?
    requires AllDecode(url.segments.value, lib.decode)
    ensures BundlePath(url, lib.decode) == Success(Joined(Decoded(url.segments.value, lib.decode)))
    ensures url.segments.value != [] ==>
      |BundlePath(url, lib.decode).value| > 0 && BundlePath(url, lib.decode).value[0] == '/'
    ensures LocalFile(Bundle(stored, bundle), url, lib, openFile)
         == bundle.source.readContent(Joined(Decoded(url.segments.value, lib.decode)))
  {
    PathOfDecodableSegments(url.segments.value, lib.decode);
    JoinedShape(Decoded(url.segments.value, lib.decode));
  }

  /** Bundle: a built path is empty or starts with a separator, and is
      empty only when there are no segments. */
  lemma {:induction false} BundlePathStartsWithSeparator(url: Url, decode: string -> Result<string, DecodeError>)
    requires BundlePath(url, decode).Success?
    ensures url.scheme == "file"
    ensures BundlePath(url, decode).value == "" <==> url.segments.None? || url.segments.value == []
    ensures BundlePath(url, decode).value != "" ==> BundlePath(url, decode).value[0] == '/'
  {
    if url.segments.Some? {
      var segs := url.segments.value;
      SegmentsPathSucceedsIff(segs, decode);
      PathOfDecodableSegments(segs, decode);
      JoinedShape(Decoded(segs, decode));
    }
  }

  /** Bundle: a segment that does not decode, after segments that do, makes
      the call an `Other` error wrapping that decode error, for every
      bundle, so no content is read. */
  lemma {:induction false} BundleDecodeFailure(
    stored: Url, bundle: Foreign.Bundle, url: Url, lib: UrlLib,
    openFile: FilePath -> Result<File, IoError>, k: nat)
    requires url.scheme == "file" && url.segments.Some?
    requires k < |url.segments.value|
    requires forall j :: 0 <= j < k ==> lib.decode(url.segments.value[j]).Success?
    requires lib.decode(url.segments.value[k]).Failure?
    ensures LocalFile(Bundle(stored, bundle), url, lib, openFile)
         == Failure(DecodingFailed(lib.decode(url.segments.value[k]).error))
  {
    FirstUndecodableSegment(url.segments.value, k, lib.decode);
  }
}
