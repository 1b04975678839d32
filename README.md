# PlayingContent: resolving what is playing to bytes

This project models `PlayingContent` from Ruffle's desktop front-end
(`frontend-utils/src/content.rs`). A `PlayingContent` is what the player
has open. It is either a loose SWF addressed by its URL (`DirectFile`) or an
entry of a loaded bundle (`Bundle`, holding the URL it was opened from and
the bundle). Three operations are modelled:

- `initial_swf_url` gives the URL playback starts from. For a bundle this is
  the entry URL in the bundle's metadata, not the URL stored in the value.
- `name` gives the display name. For a bundle this is the metadata name.
- `get_local_file(url, open_file)` reads the resource that a target URL names.
  - A loose file: the URL is converted to a file path, opened with the
    caller's opener and read whole.
  - A bundle: a non-`file` scheme is `NotFound`. Otherwise each path segment
    is percent-decoded and appended after a `/`. The resulting internal path
    goes to the bundle's content source, and its answer is returned unchanged.

Layout:

- `wrappers.dfy`: `Option` and `Result` (`:-` plays Rust's `?`).
- `foreign.dfy`: the collaborators, reduced to the interface the content code
  uses. These are `std::io::Error` (a kind, optionally with a message or a
  decode error), bytes, `Url` (scheme plus optional raw path segments), the
  bundle (metadata plus a `read_content` function), an opened file
  (described by what `read_to_end` yields), and `UrlLib`. `UrlLib` holds the
  two library calls `Url::to_file_path` and `urlencoding::decode` as function
  values supplied by the caller.
- `content.dfy`: `PlayingContent`, the accessors, and `LocalFile`, the
  specification of `get_local_file`. It also holds `GetLocalFile`, the
  step-by-step method with the path-building loop, proved equal to
  `LocalFile`. `SegmentsPath` is the loop's left-to-right fold. `Joined` is
  an independent description ("a `/` before each decoded segment, in order").
  The lemmas connect the two and state each outcome of the call.
- `percent.dfy`: a simple decoder in the sense of section 2.1 of RFC 3986.
  It is one possible segment decoder, used with its encoder and a round-trip
  proof.
- `scenarios.dfy`: worked cases. `file:///a/b%20c` becomes `/a/b c`. A demo
  bundle's logo reads as bytes 1, 2, 3. An opener's `PermissionDenied` is
  passed through unchanged.

"Never invoked" is stated as independence. The `NotFound` and decode-failure
lemmas give one fixed result for every bundle, whatever its content source
returns. The unconvertible-URL result is likewise the same for every opener.

## Model

| member | source | states |
|---|---|---|
| `Content.InitialSwfUrl` | frontend-utils/src/content.rs:30-35 | `initial_swf_url`. No `ensures` of its own (it would repeat the body); `InitialSwfUrlSource` states its behaviour. |
| `Content.Name` | frontend-utils/src/content.rs:37-41 | `name`. No `ensures` of its own; `NameSource` states its behaviour. |
| `Content.LocalFile` | frontend-utils/src/content.rs:44-78 | The outcome of `get_local_file`. No `ensures` of its own; `DirectFileOutcomes`, `LocalFileIgnoresStoredUrl` and the `Bundle*` lemmas state its behaviour, and `GetLocalFile` is proved equal to it. |
| `Content.BundlePath` | frontend-utils/src/content.rs:60-73 | The scheme check and path building of the bundle branch. No `ensures` of its own; `BundleRejectsNonFileScheme`, `BundleWithoutSegmentsReadsEmptyPath`, `BundleReadsJoinedDecodedSegments` and `BundlePathStartsWithSeparator` state its behaviour. |
| `Content.SegmentsPath` | frontend-utils/src/content.rs:63-73 | The `for` loop over the segments with its early `?` exit, as a left-to-right fold. No `ensures` of its own; `PathOfDecodableSegments`, `SegmentsPathSucceedsIff`, `FailureIsFinal` and `FirstUndecodableSegment` state its behaviour. |
| `Content.GetLocalFile` | frontend-utils/src/content.rs:44-78 | The step-by-step method returns exactly `LocalFile`: for a loose file, convert, open and read into an empty buffer with early error returns; for a bundle, check the scheme, then grow the path segment by segment (the loop invariant is that the accumulator equals the fold over the segments processed so far), stop at the first undecodable segment, and return the content source's answer. |
| `Content.InitialSwfUrlSource` | frontend-utils/src/content.rs:30-35 | A loose file starts from its stored URL. A bundle starts from its metadata URL, and replacing the stored URL with any other leaves the result unchanged. |
| `Content.NameSource` | frontend-utils/src/content.rs:37-41 | A bundle's name is its metadata name verbatim; a loose file's is the readable name derived from its stored URL. |
| `Content.LocalFileIgnoresStoredUrl` | frontend-utils/src/content.rs:49-59 | The URL stored in the content value never affects the result: of the content value, only its variant and its bundle matter. |
| `Content.DirectFileOutcomes` | frontend-utils/src/content.rs:50-57 | Loose file: an unconvertible URL gives the `Other` error "Could not turn url into file path" for every opener; a failed open gives the opener's own error; otherwise the result is whatever reading the opened file to its end yields (its whole contents or the read's error). |
| `Content.BundleRejectsNonFileScheme` | frontend-utils/src/content.rs:60-62 | Bundle: a target whose scheme is not exactly `file` gives a bare `NotFound`, before any path is built, for every bundle. |
| `Content.BundleWithoutSegmentsReadsEmptyPath` | frontend-utils/src/content.rs:63-75 | Bundle: a `file` URL without path segments reads the empty internal path. |
| `Content.BundleDelegatesToContentSource` | frontend-utils/src/content.rs:75 | Bundle: once a path is built, the result is exactly the content source's answer for that path, success or error. |
| `Content.BundleReadsJoinedDecodedSegments` | frontend-utils/src/content.rs:63-75 | Bundle: when every segment decodes, the path read is `/` followed by each decoded segment, in order, and it starts with `/` when there is a segment; the result is the content source's answer for that path. |
| `Content.BundlePathStartsWithSeparator` | frontend-utils/src/content.rs:60-73 | A path is only built for the `file` scheme. It is empty exactly when there are no segments; otherwise it starts with `/`. |
| `Content.BundleDecodeFailure` | frontend-utils/src/content.rs:67-69 | Bundle: if a segment fails to decode after segments that decode, the call gives the `Other` error wrapping that decode error, for every bundle. |
| `Content.FirstUndecodableSegment` | frontend-utils/src/content.rs:65-72 | The first undecodable segment decides the error. Any segment list that agrees up to and including that segment gives the same result, so later segments are never looked at. |
| `Content.FailureIsFinal` | frontend-utils/src/content.rs:65-72 | If a prefix of the segments fails to build, the whole list fails with the same error (the early `?` exit). |
| `Content.PathOfDecodableSegments` | frontend-utils/src/content.rs:63-73 | The left-to-right accumulation equals the independent description: the decoded segments, in order, each after a `/`. |
| `Content.SegmentsPathSucceedsIff` | frontend-utils/src/content.rs:65-72 | Building the path succeeds if and only if every segment decodes. |
| `Percent.PercentRoundTrip` | frontend-utils/src/content.rs:68 | The decoder modelled for `urlencoding::decode` inverts the matching encoder on every string. |
| `Percent.DecodeWithoutEscapes` | frontend-utils/src/content.rs:68 | A segment with no `%` decodes to itself. |
| `Percent.MalformedEscapeFails` | frontend-utils/src/content.rs:68-69 | With this decoder, the first `%` that does not start a two-hex-digit escape, after a prefix that decodes, fails at its own offset. |
| `Scenarios.EscapedSpaceInBundlePath` | frontend-utils/src/content.rs:60-73 | `file:///a/b%20c` gives the bundle path `/a/b c`. |
| `Scenarios.DemoBundleReadsLogo` | frontend-utils/src/content.rs:30-75 | A bundle named `Demo` with entry `file:///app/main.swf`: reading `file:///assets/logo.png` returns the entry's bytes 1, 2, 3 whatever the opener; its name is `Demo`; playback starts at its entry URL whatever URL is stored. |
| `Scenarios.PermissionDeniedPassesThrough` | frontend-utils/src/content.rs:55 | A loose file whose opener fails with `PermissionDenied` yields that same error, not a generic one. |

## Left out

- The `Debug` implementation (content.rs:13-27): it only formats values.
- Real file-system access. `File::open`, the `open_file` closure and
  `read_to_end` become an opener function (given as a parameter) and a file
  value that stands for what reading it to the end yields. A read that fails
  part-way leaves data in the buffer, but `?` throws that buffer away, so the
  model does not represent it.
- URL parsing and the internals of `Url::to_file_path` and
  `Url::path_segments` (the `url` crate). `Url` holds only a scheme and
  optional raw segments, and `to_file_path` is a caller-supplied partial
  function. So the model does not say which URLs convert to a path. It
  follows the code: a loose file's outcome for a non-`file` URL is whatever
  `to_file_path` says.
- The exact rules of `urlencoding::decode` (that crate's code is not part of
  this model). Decoding is a caller-supplied function. The `Percent` module
  is one simple decoder that rejects malformed escapes and maps octets to
  characters by code point. It is not a claim about the crate, which handles
  malformed escapes and UTF-8 differently.
- The bundle container format, `bundle.source()`'s lookup and
  `crate::url_to_readable_name` (files not part of this model). They are given
  as the bundle's `read_content` function and a `readableName` parameter.
- Sandbox or permission checks: the code deliberately does none
  (content.rs:74), so there is none to model.
- Idempotence of `get_local_file` is not a separate lemma. Every operation is
  a function of its inputs, so equal inputs give equal results by
  construction.
- The stored URL of a `Bundle` is not required to equal the bundle's entry
  URL. The code neither checks nor relies on this, so the model does not
  assume it.
- The sharing and lifetime of the bundle (reference counting, borrowing):
  the bundle is an immutable value here.
