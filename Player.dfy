/** The playlist and chapter state of the player window (`VisionLumina`):
    which file is loaded, the files of its folder with the index of the
    loaded one, how the next file is chosen, and which chapter the chapter
    button names. The directory listing comes from the main process and is
    a parameter here. */
module Player {
  import opened Optional
  import opened Text
  import opened Chapters

  // ---------------------------------------------------------------- paths

  predicate IsSeparator(c: char) {
    c == '/' || c == '\\'
  }

  /** `f.replace(/\\/g, '/').toLowerCase()`: the form in which two paths are
      compared. */
  function NormalizePath(p: string): (r: string)
    ensures |r| == |p|
    ensures '\\' !in r
    ensures forall i :: 0 <= i < |r| ==> !('A' <= r[i] <= 'Z')
    ensures forall i :: 0 <= i < |p| && p[i] == '\\' ==> r[i] == '/'
    ensures forall i :: 0 <= i < |p| && 'A' <= p[i] <= 'Z' ==> r[i] as int == p[i] as int + 32
    ensures forall i :: 0 <= i < |p| && p[i] == '\U{212A}' ==> r[i] == 'k'
    ensures forall i :: 0 <= i < |p| && p[i] != '\\' && !('A' <= p[i] <= 'Z') && p[i] != '\U{212A}' ==> r[i] == p[i]
  {
    Lower(seq(|p|, i requires 0 <= i < |p| => if p[i] == '\\' then '/' else p[i]))
  }

  /** Normalising twice is normalising once: a normal form has no
      backslash and no capital to change. */
  lemma NormalizePathIdempotent(p: string)
    ensures NormalizePath(NormalizePath(p)) == NormalizePath(p)
  {
    var n := NormalizePath(p);
    forall i | 0 <= i < |p| ensures NormalizePath(n)[i] == n[i] {
      var c := if p[i] == '\\' then '/' else p[i];
      assert c != '\\';
    }
  }

  /** The two separators and letter case do not tell paths apart. */
  lemma SamePathAcrossSeparatorsAndCase(p: string, q: string)
    requires |p| == |q|
    requires forall i :: 0 <= i < |p| ==>
      p[i] == q[i] || (IsSeparator(p[i]) && IsSeparator(q[i]))
      || ('A' <= p[i] <= 'Z' && q[i] as int == p[i] as int + 32)
    ensures NormalizePath(p) == NormalizePath(q)
  {
  }

  /** `files.findIndex(f => normalized(f) === normalized(path))`, with -1
      when there is none. */
  function FindPathIndex(files: seq<string>, path: string): (r: int)
    ensures -1 <= r < |files|
    ensures r >= 0 ==> NormalizePath(files[r]) == NormalizePath(path)
    ensures r >= 0 ==> forall j :: 0 <= j < r ==> NormalizePath(files[j]) != NormalizePath(path)
    ensures r == -1 <==> forall j :: 0 <= j < |files| ==> NormalizePath(files[j]) != NormalizePath(path)
  {
    if files == [] then -1
    else if NormalizePath(files[0]) == NormalizePath(path) then 0
    else
      var r := FindPathIndex(files[1..], path);
      if r == -1 then -1 else r + 1
  }

  /** The index of the last separator of `p`, if it has one. */
  function LastSeparator(p: string): (r: Option<nat>)
    ensures r.Some? ==> r.value < |p| && IsSeparator(p[r.value])
    ensures r.Some? ==> forall k :: r.value < k < |p| ==> !IsSeparator(p[k])
    ensures r.None? ==> forall k :: 0 <= k < |p| ==> !IsSeparator(p[k])
  {
    if p == [] then None
    else if IsSeparator(p[|p| - 1]) then Some(|p| - 1)
    else LastSeparator(p[..|p| - 1])
  }

  /** `path.replace(/[\\/][^\\/]+$/, '')`: drop the last separator and the
      name after it; a path that ends in a separator, or has none, is left
      as it is. */
  function DirectoryOf(path: string): string {
    match LastSeparator(path)
    case Some(i) => if i + 1 < |path| then path[..i] else path
    case None => path
  }

  /** The folder of `dir/name` (either separator) is `dir`. */
  lemma DirectoryOfJoin(dir: string, sep: char, name: string)
    requires IsSeparator(sep)
    requires name != [] && forall k :: 0 <= k < |name| ==> !IsSeparator(name[k])
    ensures DirectoryOf(dir + [sep] + name) == dir
  {
    var p := dir + [sep] + name;
    LastSeparatorOf(dir, sep, name);
    assert p[..|dir|] == dir;
  }

  lemma {:induction false} LastSeparatorOf(dir: string, sep: char, name: string)
    requires IsSeparator(sep)
    requires forall k :: 0 <= k < |name| ==> !IsSeparator(name[k])
    ensures LastSeparator(dir + [sep] + name) == Some(|dir|)
  {
    var p := dir + [sep] + name;
    if name == [] {
      assert p[|p| - 1] == sep;
    } else {
      var front := name[..|name| - 1];
      LastSeparatorOf(dir, sep, front);
      assert p[..|p| - 1] == dir + [sep] + front;
      assert p[|p| - 1] == name[|name| - 1];
    }
  }

  /** A path with no separator, or one ending in a separator, is its own
      folder. */
  lemma DirectoryOfUnsplittable(path: string)
    requires (forall k :: 0 <= k < |path| ==> !IsSeparator(path[k]))
      || (path != [] && IsSeparator(path[|path| - 1]))
    ensures DirectoryOf(path) == path
  {
  }

  // ---------------------------------------------------------------- indices

  /** The index `nextVideo` moves to: one on, wrapping to the first file. */
  function NextIndex(current: nat, length: nat): (next: nat)
    requires current < length
    ensures next < length
    ensures next == 0 <==> current == length - 1
    ensures current + 1 < length ==> next == current + 1
  {
    (current + 1) % length
  }

  /** The index `onVideoEnded` moves to, if any: one on, never wrapping. */
  function EndedIndex(current: int, length: nat): Option<nat> {
    if length > 1 && current >= 0 && current + 1 < length then Some(current + 1) else None
  }

  /** `onVideoEnded` advances exactly where `nextVideo` would, except from
      the last file, where `nextVideo` wraps and `onVideoEnded` stops. */
  lemma EndedAgreesWithNext(current: nat, length: nat)
    requires length > 1 && current < length
    ensures EndedIndex(current, length) == (if current + 1 < length then Some(NextIndex(current, length)) else None)
    ensures current + 1 == length ==> NextIndex(current, length) == 0
  {
  }

  /** Where `k` calls of `nextVideo` lead from `current`. */
  function Advance(current: nat, length: nat, k: nat): (r: nat)
    requires current < length
    ensures r < length
  {
    if k == 0 then current else NextIndex(Advance(current, length, k - 1), length)
  }

  /** Before the end of the playlist each step moves one file on. */
  lemma {:induction false} AdvanceWithin(current: nat, length: nat, k: nat)
    requires current + k < length
    ensures Advance(current, length, k) == current + k
  {
    if k > 0 {
      AdvanceWithin(current, length, k - 1);
    }
  }

  lemma {:induction false} AdvanceCompose(current: nat, length: nat, a: nat, b: nat)
    requires current < length
    ensures Advance(current, length, a + b) == Advance(Advance(current, length, a), length, b)
  {
    if b > 0 {
      AdvanceCompose(current, length, a, b - 1);
    }
  }

  /** Repeated `nextVideo` reaches every file of the playlist, and after
      as many steps as there are files it is back where it started. */
  lemma AdvanceVisitsEvery(current: nat, length: nat, target: nat)
    requires current < length && target < length
    ensures Advance(current, length, if current <= target then target - current else length - current + target) == target
  {
    if current <= target {
      AdvanceWithin(current, length, target - current);
    } else {
      AdvanceWithin(current, length, length - current - 1);
      AdvanceCompose(current, length, length - current - 1, 1);
      AdvanceCompose(current, length, length - current, target);
      AdvanceWithin(0, length, target);
    }
  }

  lemma AdvanceReturns(current: nat, length: nat)
    requires current < length
    ensures Advance(current, length, length) == current
  {
    AdvanceWithin(current, length, length - current - 1);
    AdvanceCompose(current, length, length - current - 1, 1);
    AdvanceCompose(current, length, length - current, current);
    if current > 0 {
      AdvanceWithin(0, length, current);
    }
  }

  // ---------------------------------------------------------------- the player

  /** The playlist the player keeps after loading `path`, given what the
      directory listing returned for its folder (`None` when the call
      failed). */
  function PlaylistAfter(path: string, listing: Option<seq<string>>): seq<string> {
    match listing
    case Some(files) => files
    case None => [path]
  }

  function IndexAfter(path: string, listing: Option<seq<string>>): int {
    match listing
    case Some(files) => FindPathIndex(files, path)
    case None => 0
  }

  /** The loaded file is in the playlist exactly when the index is not -1,
      and then the index names that file, up to separators and case. */
  lemma LoadedFileFound(path: string, listing: Option<seq<string>>)
    ensures -1 <= IndexAfter(path, listing) < |PlaylistAfter(path, listing)|
    ensures var i := IndexAfter(path, listing);
      i >= 0 ==> NormalizePath(PlaylistAfter(path, listing)[i]) == NormalizePath(path)
    ensures IndexAfter(path, listing) == -1 <==>
      forall j :: 0 <= j < |PlaylistAfter(path, listing)| ==>
        NormalizePath(PlaylistAfter(path, listing)[j]) != NormalizePath(path)
  {
  }

  class VisionLumina {
    var playlist: seq<string>
    var currentIndex: int
    var currentVideoPath: Option<string>
    /** `video.currentTime`, in milliseconds. */
    var currentTime: nat
    var isPlaying: bool
    var chapters: seq<Chapter>
    /** The text of the chapter button. */
    var chapterLabel: string

    /** The index is -1 or names an entry of the playlist. */
    ghost predicate Valid()
      reads this
    {
      -1 <= currentIndex < |playlist|
    }

    constructor()
      ensures Valid()
      ensures playlist == [] && currentIndex == -1 && currentVideoPath == None
      ensures currentTime == 0 && !isPlaying && chapters == [] && chapterLabel == ""
    {
      playlist := [];
      currentIndex := -1;
      currentVideoPath := None;
      currentTime := 0;
      isPlaying := false;
      chapters := [];
      chapterLabel := "";
    }

    /** `buildPlaylist`: the files of the folder, and the position of the
      loaded file among them; on failure, the loaded file alone. */
    method BuildPlaylist(currentFilePath: string, listDirectory: string -> Option<seq<string>>)
      modifies this`playlist, this`currentIndex
      ensures Valid()
      ensures playlist == PlaylistAfter(currentFilePath, listDirectory(DirectoryOf(currentFilePath)))
      ensures currentIndex == IndexAfter(currentFilePath, listDirectory(DirectoryOf(currentFilePath)))
    {
      var dirPath := DirectoryOf(currentFilePath);
      match listDirectory(dirPath) {
        case Some(files) =>
          playlist := files;
          currentIndex := FindPathIndex(files, currentFilePath);
        case None =>
          playlist := [currentFilePath];
          currentIndex := 0;
      }
    }

    /** `loadVideoFile`: an empty path does nothing; otherwise the file
      becomes the current one, starts from the beginning, and the playlist
      is rebuilt from its folder. */
    method LoadVideoFile(filePath: string, listDirectory: string -> Option<seq<string>>)
      requires Valid()
      modifies this`currentVideoPath, this`currentTime, this`playlist, this`currentIndex
      ensures Valid()
      ensures filePath == [] ==> unchanged(this)
      ensures filePath != [] ==> Loaded(filePath, listDirectory)
    {
      if filePath == [] {
        return;
      }
      currentVideoPath := Some(filePath);
      currentTime := 0;
      BuildPlaylist(filePath, listDirectory);
    }

    /** The state right after `path` has been loaded. */
    ghost predicate Loaded(path: string, listDirectory: string -> Option<seq<string>>)
      reads this
    {
      var listing := listDirectory(DirectoryOf(path));
      currentVideoPath == Some(path) && currentTime == 0
      && playlist == PlaylistAfter(path, listing) && currentIndex == IndexAfter(path, listing)
    }

    /** `nextVideo`: with more than one file and a known position, load the
      next file, wrapping to the first; otherwise restart the current file,
      asking to play again if it was playing. */
    method NextVideo(listDirectory: string -> Option<seq<string>>) returns (playRequested: bool)
      requires Valid()
      modifies this`currentVideoPath, this`currentTime, this`playlist, this`currentIndex
      ensures Valid()
      ensures old(|playlist| > 1 && currentIndex >= 0) ==>
        !playRequested
        && var target := old(playlist[NextIndex(currentIndex, |playlist|)]);
           (target == [] ==> unchanged(this)) && (target != [] ==> Loaded(target, listDirectory))
      ensures !old(|playlist| > 1 && currentIndex >= 0) ==>
        currentTime == 0 && playRequested == isPlaying
        && playlist == old(playlist) && currentIndex == old(currentIndex) && currentVideoPath == old(currentVideoPath)
    {
      if |playlist| > 1 && currentIndex >= 0 {
        var nextIndex := NextIndex(currentIndex, |playlist|);
        LoadVideoFile(playlist[nextIndex], listDirectory);
        playRequested := false;
      } else {
        currentTime := 0;
        playRequested := isPlaying;
      }
    }

    /** `onVideoEnded`: playback stops; with a known position that is not the
      last one, the next file is loaded and playback is asked for once it
      has loaded. The last file does not wrap around. */
    method OnVideoEnded(listDirectory: string -> Option<seq<string>>) returns (playRequested: bool)
      requires Valid()
      modifies this`isPlaying, this`currentVideoPath, this`currentTime, this`playlist, this`currentIndex
      ensures Valid() && !isPlaying
      ensures playRequested <==> old(EndedIndex(currentIndex, |playlist|)).Some?
      ensures old(EndedIndex(currentIndex, |playlist|)).Some? ==>
        var target := old(playlist[currentIndex + 1]);
        (target == [] ==> playlist == old(playlist) && currentIndex == old(currentIndex)
                          && currentVideoPath == old(currentVideoPath) && currentTime == old(currentTime))
        && (target != [] ==> Loaded(target, listDirectory))
      ensures old(EndedIndex(currentIndex, |playlist|)).None? ==>
        playlist == old(playlist) && currentIndex == old(currentIndex)
        && currentVideoPath == old(currentVideoPath) && currentTime == old(currentTime)
    {
      isPlaying := false;
      playRequested := false;
      if |playlist| > 1 && currentIndex >= 0 {
        var nextIndex := currentIndex + 1;
        if nextIndex < |playlist| {
          LoadVideoFile(playlist[nextIndex], listDirectory);
          playRequested := true;
        }
      }
    }

    /** `updateCurrentChapter`: with no chapters nothing changes; otherwise
      the button names the last chapter that has started, or the first
      chapter when none has. */
    method UpdateCurrentChapter()
      modifies this`chapterLabel
      ensures chapters == [] ==> chapterLabel == old(chapterLabel)
      ensures chapters != [] ==> chapterLabel == chapters[CurrentIndex(chapters, currentTime)].title
    {
      if |chapters| == 0 {
        return;
      }
      var current := chapters[0];
      for i := 0 to |chapters|
        invariant current == match LastStarted(chapters[..i], currentTime)
                             case Some(k) => chapters[k]
                             case None => chapters[0]
      {
        assert chapters[..i + 1][..i] == chapters[..i];
        if Started(chapters[i], currentTime) {
          current := chapters[i];
        }
      }
      assert chapters[..|chapters|] == chapters;
      chapterLabel := current.title;
    }
  }
}
