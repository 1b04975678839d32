/** The collaborators that `PlayingContent` consumes but does not define:
    `std::io::Error`, byte buffers, `url::Url`, the bundle with its metadata
    and content source, an opened file, and the two library calls
    `Url::to_file_path` and `urlencoding::decode`. Each is reduced to the
    interface the content code uses; behaviour that lives outside the
    content code is supplied by the caller as a function value. */
module Foreign {
  import opened Wrappers

  /** One octet of file or bundle content. */
  newtype byte = b: int | 0 <= b < 256

  type Bytes = seq<byte>

  /** A file-system path, as produced by `Url::to_file_path`. */
  type FilePath = string

  /** `std::io::ErrorKind`. The content code itself only ever creates
      `NotFound` and `Other`; every other kind can arrive from the opener,
      the read or the bundle and is passed on. A few are named, and
      `OtherKind` stands for any of the remaining ones by its name. */
  datatype ErrorKind =
    | NotFound | PermissionDenied | InvalidData | UnexpectedEof | Other
    | OtherKind(name: string)

  /** Why a segment decoder gave up, as the offset in the segment it
      stopped at. This is the error of the `Percent` decoder; the content
      code only wraps it and never looks inside, so it also stands for the
      UTF-8 error of `urlencoding::decode`. */
  datatype DecodeError = DecodeError(offset: nat)

  /** What a custom `std::io::Error` carries besides its kind. */
  datatype Cause = Message(text: string) | Undecodable(decodeError: DecodeError)

  /** `std::io::Error`: either a bare kind (`ErrorKind::NotFound.into()`)
      or a kind with a payload (`std::io::Error::other(payload)`). */
  datatype IoError = Simple(kind: ErrorKind) | Custom(kind: ErrorKind, cause: Cause)

  /** `url::Url`, reduced to what the content code reads: the scheme and
      `path_segments()`, which is `None` for a URL that cannot be a base
      (such as `data:` or `mailto:`) and otherwise the raw, still
      percent-encoded segments in order. */
  datatype Url = Url(scheme: string, segments: Option<seq<string>>)

  /** `bundle.information()`: the bundle's canonical entry URL and display name. */
  datatype BundleInformation = BundleInformation(url: Url, name: string)

  /** `bundle.source()`: `read_content` maps an internal path to the entry's bytes. */
  datatype BundleSource = BundleSource(readContent: string -> Result<Bytes, IoError>)

  /** A loaded bundle, shared read-only by every content value that names it. */
  datatype Bundle = LoadedBundle(information: BundleInformation, source: BundleSource)

  /** An opened file, described by what `read_to_end` on it yields: the
      whole remaining contents, or the error the read stopped with. */
  datatype File = File(readToEnd: Result<Bytes, IoError>)

  /** The `url` and `urlencoding` library calls the content code makes:
      `Url::to_file_path` (fails with `()`, here `None`) and
      `urlencoding::decode` on one path segment. */
  datatype UrlLib = UrlLib(
    toFilePath: Url -> Option<FilePath>,
    decode: string -> Result<string, DecodeError>)
}
