/** Worked cases of `get_local_file`, with the percent-decoder of module
    `Percent` as the segment decoder. */
module Scenarios {
  import opened Wrappers
  import opened Foreign
  import opened Content
  import opened Percent

  const MainSwf := Url("file", Some(["app", "main.swf"]))
  const Logo := Url("file", Some(["assets", "logo.png"]))

  /** A bundle whose entry is `file:///app/main.swf`, named `Demo`, holding
      one entry `/assets/logo.png` with bytes 1, 2, 3. */
  const Demo := LoadedBundle(
    BundleInformation(MainSwf, "Demo"),
    BundleSource(path => if path == "/assets/logo.png" then Success([1, 2, 3]) else Failure(Simple(NotFound))))

  /** `file:///a/b%20c` names the bundle path `/a/b c`. */
  lemma EscapedSpaceInBundlePath()
    ensures BundlePath(Url("file", Some(["a", "b%20c"])), PercentDecode) == Success("/a/b c")
  {
    DecodeWithoutEscapes("a", 0);
    DecodeWithoutEscapes("c", 4);
    assert HexValue('2') == Some(2) && HexValue('0') == Some(0);
    assert "%20c"[3..] == "c";
    assert [' '] + "c" == " c";
    assert DecodeFrom("%20c", 1) == Success(" c");
    assert "b%20c"[1..] == "%20c" && "b%20c"[0] == 'b';
    assert ['b'] + " c" == "b c";
    assert DecodeFrom("b%20c", 0) == Success("b c");
    var segs := ["a", "b%20c"];
    assert segs[..1] == ["a"] && ["a"][..0] == [];
    assert "" + "/" + "a" == "/a" && "/a" + "/" + "b c" == "/a/b c";
    assert SegmentsPath(["a"], PercentDecode) == Success("/a");
  }

  /** A single plain segment becomes that segment after a separator. */
  lemma {:induction false} PlainSegmentPath(seg: string)
    requires forall i :: 0 <= i < |seg| ==> seg[i] != '%'
    ensures SegmentsPath([seg], PercentDecode) == Success("/" + seg)
  {
    DecodeWithoutEscapes(seg, 0);
    assert [seg][..0] == [];
    assert "" + "/" + seg == "/" + seg;
  }

  /** Two segments without escapes become the two, each after a separator. */
  lemma {:induction false} TwoPlainSegmentsPath(first: string, second: string)
    requires forall i :: 0 <= i < |first| ==> first[i] != '%'
    requires forall i :: 0 <= i < |second| ==> second[i] != '%'
    ensures SegmentsPath([first, second], PercentDecode) == Success("/" + first + "/" + second)
  {
    PlainSegmentPath(first);
    DecodeWithoutEscapes(second, 0);
    assert [first, second][..1] == [first];
  }

  /** The logo's segments make the path `/assets/logo.png`. */
  lemma LogoSegmentsPath()
    ensures SegmentsPath(["assets", "logo.png"], PercentDecode) == Success("/assets/logo.png")
  {
    TwoPlainSegmentsPath("assets", "logo.png");
    assert "/" + "assets" + "/" + "logo.png" == "/assets/logo.png";
  }

  /** The logo's URL names the bundle path `/assets/logo.png`. */
  lemma LogoBundlePath()
    ensures BundlePath(Logo, PercentDecode) == Success("/assets/logo.png")
  {
    LogoSegmentsPath();
    assert Logo.scheme == "file" && Logo.segments == Some(["assets", "logo.png"]);
  }

  /** The demo bundle: its logo reads as 1, 2, 3 whatever the opener and
      the path converter, its name is `Demo`, and playback starts at its
      entry URL even when the content value stores another URL. */
  lemma DemoBundleReadsLogo(
    stored: Url, toFilePath: Url -> Option<FilePath>, openFile: FilePath -> Result<File, IoError>,
    readableName: Url -> string)
    ensures LocalFile(Bundle(stored, Demo), Logo, UrlLib(toFilePath, PercentDecode), openFile) == Success([1, 2, 3])
    ensures Name(Bundle(stored, Demo), readableName) == "Demo"
    ensures InitialSwfUrl(Bundle(stored, Demo)) == MainSwf
  {
    LogoBundlePath();
  }

  /** A loose file whose opener refuses with `PermissionDenied` yields that
      same error, not a generic one. */
  lemma PermissionDeniedPassesThrough(decode: string -> Result<string, DecodeError>)
    ensures LocalFile(
      DirectFile(Url("file", Some(["tmp", "x.swf"]))),
      Url("file", Some(["tmp", "x.swf"])),
      UrlLib(_ => Some("/tmp/x.swf"), decode),
      path => if path == "/tmp/x.swf" then Failure(Simple(PermissionDenied)) else Success(File(Success([]))))
      == Failure(Simple(PermissionDenied))
  {
  }
}
