/** The main process's choice of the video to open: which paths count as
    video files, which command-line argument is taken at start-up and when a
    second instance is launched, and what a file-association open does.
    Whether a file exists, how a path is made absolute and whether the
    window is open are parameters here. */
module Launcher {
  import opened Optional
  import opened Text

  // ---------------------------------------------------------------- extensions

  /** Node's `path` module follows the platform it runs on. */
  datatype Platform = Posix | Win32

  predicate IsPathSeparator(plat: Platform, c: char) {
    c == '/' || (plat == Win32 && c == '\\')
  }

  /** The part of the path `extname` looks at: on Windows a leading drive
      (`C:`) is skipped. */
  function Scanned(plat: Platform, path: string): (r: string)
    ensures r == path || (plat == Win32 && |path| >= 2 && r == path[2..])
  {
    if plat == Win32 && |path| >= 2 && path[1] == ':' && IsAsciiLetter(path[0]) then path[2..] else path
  }

  /** The path without its trailing separators. */
  function StripTrailing(plat: Platform, s: string): (r: string)
    ensures r <= s
    ensures r == [] || !IsPathSeparator(plat, r[|r| - 1])
    ensures forall k :: |r| <= k < |s| ==> IsPathSeparator(plat, s[k])
  {
    if s != [] && IsPathSeparator(plat, s[|s| - 1]) then StripTrailing(plat, s[..|s| - 1]) else s
  }

  /** What follows the last separator. */
  function LastSegment(plat: Platform, s: string): (r: string)
    ensures |r| <= |s|
    ensures forall k :: 0 <= k < |r| ==> !IsPathSeparator(plat, r[k])
  {
    if s == [] || IsPathSeparator(plat, s[|s| - 1]) then []
    else LastSegment(plat, s[..|s| - 1]) + [s[|s| - 1]]
  }

  /** The last component of the path, as `extname` delimits it. */
  function BaseName(plat: Platform, path: string): (r: string)
    ensures forall k :: 0 <= k < |r| ==> !IsPathSeparator(plat, r[k])
  {
    LastSegment(plat, StripTrailing(plat, Scanned(plat, path)))
  }

  /** The index of the last dot, if any. */
  function LastDot(s: string): (r: Option<nat>)
    ensures r.Some? ==> r.value < |s| && s[r.value] == '.'
    ensures r.Some? ==> forall k :: r.value < k < |s| ==> s[k] != '.'
    ensures r.None? ==> forall k :: 0 <= k < |s| ==> s[k] != '.'
  {
    if s == [] then None
    else if s[|s| - 1] == '.' then Some(|s| - 1)
    else LastDot(s[..|s| - 1])
  }

  /** `path.extname`: from the last dot of the last component to its end;
      empty when that component has no dot, starts with its only dot, or is
      `..`. */
  function ExtName(plat: Platform, path: string): (r: string)
    ensures r == [] || (r[0] == '.' && |r| <= |BaseName(plat, path)|)
    ensures forall k :: 1 <= k < |r| ==> r[k] != '.' && !IsPathSeparator(plat, r[k])
  {
    var base := BaseName(plat, path);
    match LastDot(base)
    case None => []
    case Some(d) => if d == 0 || base == ".." then [] else base[d..]
  }

  /** The twelve extensions the player accepts. */
  predicate IsVideoExtension(ext: string) {
    ext == ".mp4" || ext == ".avi" || ext == ".mkv" || ext == ".mov" || ext == ".wmv" || ext == ".flv"
    || ext == ".webm" || ext == ".m4v" || ext == ".3gp" || ext == ".ogv" || ext == ".ts" || ext == ".mts"
  }

  /** `isVideoFile`: the lower-cased extension is one of the listed ones. */
  predicate IsVideoFile(plat: Platform, path: string) {
    IsVideoExtension(Lower(ExtName(plat, path)))
  }

  /** A file name `stem + ext` under any folder has extension `ext`, when
      `ext` is a dot followed by at least one character that is neither a
      dot nor a separator, and `stem` is not empty. */
  lemma {:induction false} ExtNameOfFileName(plat: Platform, dir: string, stem: string, ext: string)
    requires dir == [] || IsPathSeparator(plat, dir[|dir| - 1])
    requires stem != [] && forall k :: 0 <= k < |stem| ==> !IsPathSeparator(plat, stem[k])
    requires plat == Win32 && dir == [] ==> |stem| < 2 || stem[1] != ':'
    requires |ext| >= 2 && ext[0] == '.'
    requires forall k :: 1 <= k < |ext| ==> ext[k] != '.' && !IsPathSeparator(plat, ext[k])
    ensures ExtName(plat, dir + stem + ext) == ext
  {
    var name := stem + ext;
    assert dir + stem + ext == dir + name;
    assert forall k :: 0 <= k < |name| ==> !IsPathSeparator(plat, name[k]) by {
      forall k | 0 <= k < |name| ensures !IsPathSeparator(plat, name[k]) {
        if k >= |stem| { assert name[k] == ext[k - |stem|]; }
      }
    }
    assert |stem| < 2 || name[1] == stem[1];
    BaseNameOfFile(plat, dir, name);
    LastDotOfName(stem, ext);
    ExtNameFromBase(plat, dir + name, |stem|);
  }

  lemma ExtNameFromBase(plat: Platform, path: string, d: nat)
    requires LastDot(BaseName(plat, path)) == Some(d)
    requires d != 0 && BaseName(plat, path) != ".."
    ensures ExtName(plat, path) == BaseName(plat, path)[d..]
  {
  }

  /** The last component of `dir + name` is `name`. */
  lemma BaseNameOfFile(plat: Platform, dir: string, name: string)
    requires dir == [] || IsPathSeparator(plat, dir[|dir| - 1])
    requires name != [] && forall k :: 0 <= k < |name| ==> !IsPathSeparator(plat, name[k])
    requires plat == Win32 && dir == [] && |name| >= 2 ==> name[1] != ':'
    ensures BaseName(plat, dir + name) == name
  {
    var before := ScannedKeepsName(plat, dir, name);
    StrippedSegment(plat, before, name);
  }

  lemma StrippedSegment(plat: Platform, before: string, name: string)
    requires before == [] || IsPathSeparator(plat, before[|before| - 1])
    requires name != [] && forall k :: 0 <= k < |name| ==> !IsPathSeparator(plat, name[k])
    ensures LastSegment(plat, StripTrailing(plat, before + name)) == name
  {
    var s := before + name;
    assert s[|s| - 1] == name[|name| - 1];
    assert StripTrailing(plat, s) == s;
    SegmentAfterSeparator(plat, before, name);
  }

  /** Skipping a drive leaves the file name at the end, after a separator
      or at the start. */
  lemma ScannedKeepsName(plat: Platform, dir: string, name: string) returns (before: string)
    requires dir == [] || IsPathSeparator(plat, dir[|dir| - 1])
    requires name != []
    requires plat == Win32 && dir == [] && |name| >= 2 ==> name[1] != ':'
    ensures Scanned(plat, dir + name) == before + name
    ensures before == [] || IsPathSeparator(plat, before[|before| - 1])
  {
    var path := dir + name;
    var s := Scanned(plat, path);
    if |dir| >= 2 {
      assert path[0] == dir[0] && path[1] == dir[1];
      if s == path {
        before := dir;
      } else {
        before := dir[2..];
        assert s == path[2..] == dir[2..] + name;
      }
    } else if dir == [] {
      if |name| >= 2 {
        assert path[1] == name[1];
      }
      before := dir;
    } else {
      assert path[0] == dir[0];
      before := dir;
    }
  }

  lemma {:induction false} SegmentAfterSeparator(plat: Platform, before: string, name: string)
    requires before == [] || IsPathSeparator(plat, before[|before| - 1])
    requires forall k :: 0 <= k < |name| ==> !IsPathSeparator(plat, name[k])
    ensures LastSegment(plat, before + name) == name
  {
    if name == [] {
      assert before + name == before;
    } else {
      var s := before + name;
      var front := name[..|name| - 1];
      SegmentAfterSeparator(plat, before, front);
      assert s[..|s| - 1] == before + front;
      assert s[|s| - 1] == name[|name| - 1];
      assert front + [name[|name| - 1]] == name;
    }
  }

  lemma LastDotOfName(stem: string, ext: string)
    requires stem != [] && |ext| >= 2 && ext[0] == '.'
    requires forall k :: 1 <= k < |ext| ==> ext[k] != '.'
    ensures LastDot(stem + ext) == Some(|stem|)
    ensures stem + ext != ".." && (stem + ext)[|stem|..] == ext
  {
    var name := stem + ext;
    var r := LastDot(name);
    assert name[|stem|] == '.';
    assert forall k :: |stem| < k < |name| ==> name[k] == ext[k - |stem|];
    assert |name| >= 3;
  }

  /** The comparison ignores case: `CLIP.MKV` is a video file. */
  lemma UpperCaseExtensionAccepted(plat: Platform)
    ensures IsVideoFile(plat, "CLIP.MKV")
  {
    ExtNameOfFileName(plat, "", "CLIP", ".MKV");
    assert "" + "CLIP" + ".MKV" == "CLIP.MKV";
    MkvLowered();
  }

  /** The same on Windows, under a drive and folders. */
  lemma WindowsPathAccepted()
    ensures IsVideoFile(Win32, "C:\\Films\\CLIP.MKV")
  {
    ExtNameOfFileName(Win32, "C:\\Films\\", "CLIP", ".MKV");
    assert "C:\\Films\\" + "CLIP" + ".MKV" == "C:\\Films\\CLIP.MKV";
    MkvLowered();
  }

  lemma MkvLowered()
    ensures Lower(".MKV") == ".mkv" && IsVideoExtension(Lower(".MKV"))
  {
  }

  /** Only the final extension counts. */
  lemma FinalExtensionOnly(plat: Platform)
    ensures !IsVideoFile(plat, "a.mkv.txt")
  {
    ExtNameOfFileName(plat, "", "a.mkv", ".txt");
    assert "" + "a.mkv" + ".txt" == "a.mkv.txt";
    TxtNotVideo();
  }

  lemma TxtNotVideo()
    ensures Lower(".txt") == ".txt" && !IsVideoExtension(".txt")
  {
    var t := ".txt";
    assert t[1] == 't' && t[2] == 'x';
  }

  /** A name without a dot, or whose only dot is its first character, has
      no extension and is not a video file. */
  lemma NoExtensionRejected(plat: Platform, path: string)
    requires LastDot(BaseName(plat, path)).None? || LastDot(BaseName(plat, path)) == Some(0)
    ensures ExtName(plat, path) == [] && !IsVideoFile(plat, path)
  {
    assert Lower([]) == [];
  }

  /** `/videos/.mkv` is a hidden file named `.mkv`, not a Matroska file. */
  lemma DotFileRejected(plat: Platform)
    ensures !IsVideoFile(plat, "/videos/.mkv")
  {
    var name := ".mkv";
    assert name[0] == '.' && name[1] != '.' && name[2] != '.' && name[3] != '.';
    assert forall k :: 0 <= k < |name| ==> !IsPathSeparator(plat, name[k]);
    BaseNameOfFile(plat, "/videos/", name);
    assert "/videos/" + name == "/videos/.mkv";
    NoExtensionRejected(plat, "/videos/.mkv");
  }

  /** For a file name with a proper extension, being a video file is
      decided by that extension alone, whatever its case and whatever the
      folder. */
  lemma VideoFileByName(plat: Platform, dir: string, stem: string, ext: string)
    requires dir == [] || IsPathSeparator(plat, dir[|dir| - 1])
    requires stem != [] && forall k :: 0 <= k < |stem| ==> !IsPathSeparator(plat, stem[k])
    requires plat == Win32 && dir == [] ==> |stem| < 2 || stem[1] != ':'
    requires |ext| >= 2 && ext[0] == '.'
    requires forall k :: 1 <= k < |ext| ==> ext[k] != '.' && !IsPathSeparator(plat, ext[k])
    ensures IsVideoFile(plat, dir + stem + ext) <==> IsVideoExtension(Lower(ext))
  {
    ExtNameOfFileName(plat, dir, stem, ext);
  }

  // ---------------------------------------------------------------- arguments

  /** The test an argument must pass to be taken: it names a video file
      that exists. */
  function Accept(plat: Platform, fileExists: string -> bool): string -> bool {
    arg => IsVideoFile(plat, arg) && fileExists(arg)
  }

  /** The index within `args` of the first argument that passes `accept`. */
  function FirstAccepted(accept: string -> bool, args: seq<string>): (r: Option<nat>)
    ensures r.Some? ==> r.value < |args| && accept(args[r.value])
    ensures r.Some? ==> forall j :: 0 <= j < r.value ==> !accept(args[j])
    ensures r.None? <==> forall j :: 0 <= j < |args| ==> !accept(args[j])
  {
    if args == [] then None
    else if accept(args[0]) then Some(0)
    else match FirstAccepted(accept, args[1..])
      case Some(k) => Some(k + 1)
      case None => None
  }

  /** The first accepted position is the one `FirstAccepted` finds. */
  lemma FirstAcceptedIsFirst(accept: string -> bool, args: seq<string>, k: nat)
    requires k < |args| && accept(args[k])
    requires forall j :: 0 <= j < k ==> !accept(args[j])
    ensures FirstAccepted(accept, args) == Some(k)
  {
  }

  /** Once an argument is accepted, what follows it is never looked at. */
  lemma LaterArgumentsIgnored(accept: string -> bool, args: seq<string>, more: seq<string>)
    requires FirstAccepted(accept, args).Some?
    ensures FirstAccepted(accept, args + more) == FirstAccepted(accept, args)
  {
    var k := FirstAccepted(accept, args).value;
    assert (args + more)[k] == args[k];
    FirstAcceptedIsFirst(accept, args + more, k);
  }

  /** When nothing in `args` is accepted, the search goes on into `more`. */
  lemma SearchContinues(accept: string -> bool, args: seq<string>, more: seq<string>)
    requires FirstAccepted(accept, args).None?
    ensures FirstAccepted(accept, args + more) ==
      match FirstAccepted(accept, more) case Some(k) => Some(|args| + k) case None => None
  {
    var all := args + more;
    match FirstAccepted(accept, more)
    case Some(k) =>
      assert all[|args| + k] == more[k];
      forall j | 0 <= j < |args| + k ensures !accept(all[j]) {
        if j >= |args| { assert all[j] == more[j - |args|]; }
      }
      FirstAcceptedIsFirst(accept, all, |args| + k);
    case None =>
      forall j | 0 <= j < |all| ensures !accept(all[j]) {
        if j >= |args| { assert all[j] == more[j - |args|]; }
      }
  }

  /** The loop over `argv.slice(1)`: the position in `argv` of the first
      argument after the program itself that passes `accept`. */
  method FindVideoArgument(accept: string -> bool, argv: seq<string>) returns (found: Option<nat>)
    ensures found.Some? ==> 1 <= found.value < |argv| && accept(argv[found.value])
    ensures found.Some? ==> forall j :: 1 <= j < found.value ==> !accept(argv[j])
    ensures found.None? <==> forall j :: 1 <= j < |argv| ==> !accept(argv[j])
    ensures found == match FirstAccepted(accept, Arguments(argv)) case Some(k) => Some(k + 1) case None => None
  {
    found := None;
    if |argv| == 0 {
      return;
    }
    var args := argv[1..];
    var i := 0;
    while i < |args|
      invariant 0 <= i <= |args|
      invariant found == None
      invariant forall j :: 0 <= j < i ==> !accept(args[j])
    {
      if accept(args[i]) {
        found := Some(i + 1);
        break;
      }
      i := i + 1;
    }
    assert forall j :: 1 <= j < |argv| ==> argv[j] == args[j - 1];
    ArgumentFound(accept, argv, found);
  }

  /** What `FindVideoArgument` returns is `FirstAccepted` over the
      arguments after the first, shifted by one. */
  lemma ArgumentFound(accept: string -> bool, argv: seq<string>, found: Option<nat>)
    requires found.Some? ==> 1 <= found.value < |argv| && accept(argv[found.value])
    requires found.Some? ==> forall j :: 1 <= j < found.value ==> !accept(argv[j])
    requires found.None? <==> forall j :: 1 <= j < |argv| ==> !accept(argv[j])
    ensures FirstAccepted(accept, Arguments(argv)) == match found case Some(k) => Some(k - 1) case None => None
  {
    if argv != [] {
      var args := argv[1..];
      assert forall j :: 0 <= j < |args| ==> args[j] == argv[j + 1];
      if found.Some? {
        FirstAcceptedIsFirst(accept, args, found.value - 1);
      }
    }
  }

  /** `argv.slice(1)`: everything after the program itself. */
  function Arguments(argv: seq<string>): (args: seq<string>)
    ensures |args| == if argv == [] then 0 else |argv| - 1
    ensures forall j :: 0 <= j < |args| ==> args[j] == argv[j + 1]
  {
    if argv == [] then [] else argv[1..]
  }

  // ---------------------------------------------------------------- main process

  class MainProcess {
    /** The module-level `videoFilePath`. */
    var videoFilePath: Option<string>

    constructor()
      ensures videoFilePath == None
    {
      videoFilePath := None;
    }

    /** `handleCommandLineArgs`: the first existing video file among the
      arguments, made absolute, becomes the path to open; with none, the
      path stays as it was. */
    method HandleCommandLineArgs(plat: Platform, fileExists: string -> bool, resolve: string -> string, argv: seq<string>)
      modifies this
      ensures match FirstAccepted(Accept(plat, fileExists), Arguments(argv))
        case Some(k) => videoFilePath == Some(resolve(argv[k + 1]))
        case None => videoFilePath == old(videoFilePath)
    {
      var found := FindVideoArgument(Accept(plat, fileExists), argv);
      if found.Some? {
        videoFilePath := Some(resolve(argv[found.value]));
      }
    }

    /** The `second-instance` handler: the same choice over the second
      instance's command line; then, if the window is open, it is
      brought forward and sent the path, when there is one. */
    method OnSecondInstance(plat: Platform, fileExists: string -> bool, resolve: string -> string,
                            commandLine: seq<string>, windowOpen: bool)
      returns (sent: Option<string>)
      modifies this
      ensures match FirstAccepted(Accept(plat, fileExists), Arguments(commandLine))
        case Some(k) => videoFilePath == Some(resolve(commandLine[k + 1]))
        case None => videoFilePath == old(videoFilePath)
      ensures sent == (if windowOpen && videoFilePath.Some? && videoFilePath.value != [] then videoFilePath else None)
    {
      var found := FindVideoArgument(Accept(plat, fileExists), commandLine);
      if found.Some? {
        videoFilePath := Some(resolve(commandLine[found.value]));
      }
      sent := None;
      if windowOpen {
        if videoFilePath.Some? && videoFilePath.value != [] {
          sent := videoFilePath;
        }
      }
    }

    /** The `open-file` handler: a video file becomes the path to open, as
      given, and is sent to the open window or opens one; any other file
      changes nothing. */
    method OnOpenFile(plat: Platform, filePath: string, windowOpen: bool)
      returns (sent: Option<string>, createWindow: bool)
      modifies this
      ensures IsVideoFile(plat, filePath) ==> videoFilePath == Some(filePath)
      ensures !IsVideoFile(plat, filePath) ==> videoFilePath == old(videoFilePath)
      ensures sent == (if IsVideoFile(plat, filePath) && windowOpen then Some(filePath) else None)
      ensures createWindow <==> IsVideoFile(plat, filePath) && !windowOpen
    {
      sent, createWindow := None, false;
      if IsVideoFile(plat, filePath) {
        videoFilePath := Some(filePath);
        if windowOpen {
          sent := Some(filePath);
        } else {
          createWindow := true;
        }
      }
    }
  }
}
