/** The folder list of the home screen (`HomeLibrary`): folders are added
    from the folder dialog without duplicates and removed by value; each
    change is written back to the stored list. The stored list and the
    dialog's answer are parameters here. */
module Library {
  import opened Optional

  /** No folder occurs twice. */
  predicate NoDuplicates(dirs: seq<string>) {
    forall i, j :: 0 <= i < j < |dirs| ==> dirs[i] != dirs[j]
  }

  /** `dirs.includes(dir) ? dirs : [...dirs, dir]`. */
  function AddDir(dirs: seq<string>, dir: string): (r: seq<string>)
    ensures dir in r
    ensures forall d :: d in r <==> d in dirs || d == dir
    ensures |r| <= |dirs| + 1
  {
    if dir in dirs then dirs else dirs + [dir]
  }

  /** `dirs.filter(d => d !== dir)`. */
  function Without(dirs: seq<string>, dir: string): (r: seq<string>)
    ensures dir !in r
    ensures forall d :: d in r <==> d in dirs && d != dir
    ensures |r| <= |dirs|
  {
    if dirs == [] then []
    else (if dirs[0] == dir then [] else [dirs[0]]) + Without(dirs[1..], dir)
  }

  /** Adding keeps the list duplicate-free. */
  lemma AddKeepsNoDuplicates(dirs: seq<string>, dir: string)
    requires NoDuplicates(dirs)
    ensures NoDuplicates(AddDir(dirs, dir))
  {
  }

  /** Adding a folder already listed changes nothing; otherwise it goes at
      the end and the others keep their places. */
  lemma AddAppends(dirs: seq<string>, dir: string)
    ensures dir in dirs ==> AddDir(dirs, dir) == dirs
    ensures dir !in dirs ==> AddDir(dirs, dir)[..|dirs|] == dirs && AddDir(dirs, dir)[|dirs|] == dir
  {
  }

  /** Removal drops every copy of the folder and keeps every other one,
      with its number of occurrences. */
  lemma {:induction false} WithoutCounts(dirs: seq<string>, dir: string)
    ensures multiset(Without(dirs, dir)) == multiset(dirs)[dir := 0]
  {
    if dirs != [] {
      WithoutCounts(dirs[1..], dir);
      assert dirs == [dirs[0]] + dirs[1..];
    }
  }

  /** Removal keeps the order of what remains: removing from a
      concatenation removes from each part. */
  lemma {:induction false} WithoutDistributes(a: seq<string>, b: seq<string>, dir: string)
    ensures Without(a + b, dir) == Without(a, dir) + Without(b, dir)
  {
    if a != [] {
      WithoutDistributes(a[1..], b, dir);
      assert (a + b)[1..] == a[1..] + b;
      var head := if a[0] == dir then [] else [a[0]];
      assert Without(a + b, dir) == head + (Without(a[1..], dir) + Without(b, dir));
      assert head + (Without(a[1..], dir) + Without(b, dir)) == (head + Without(a[1..], dir)) + Without(b, dir);
    } else {
      assert a + b == b;
    }
  }

  /** Removing a folder that is not listed changes nothing. */
  lemma {:induction false} WithoutAbsent(dirs: seq<string>, dir: string)
    requires dir !in dirs
    ensures Without(dirs, dir) == dirs
  {
    if dirs != [] {
      WithoutAbsent(dirs[1..], dir);
    }
  }

  /** Removal keeps the list duplicate-free. */
  lemma {:induction false} WithoutKeepsNoDuplicates(dirs: seq<string>, dir: string)
    requires NoDuplicates(dirs)
    ensures NoDuplicates(Without(dirs, dir))
  {
    if dirs != [] {
      WithoutKeepsNoDuplicates(dirs[1..], dir);
      var rest := Without(dirs[1..], dir);
      assert dirs[0] !in dirs[1..];
      assert dirs[0] !in rest;
      var r := Without(dirs, dir);
      if dirs[0] != dir {
        assert r == [dirs[0]] + rest;
        forall i, j | 0 <= i < j < |r| ensures r[i] != r[j] {
          if i == 0 {
            assert r[j] == rest[j - 1];
          } else {
            assert r[i] == rest[i - 1] && r[j] == rest[j - 1];
          }
        }
      } else {
        assert r == rest;
      }
    }
  }

  /** Removing what was just added restores a list that did not hold it. */
  lemma RemoveUndoesAdd(dirs: seq<string>, dir: string)
    requires dir !in dirs
    ensures Without(AddDir(dirs, dir), dir) == dirs
  {
    WithoutDistributes(dirs, [dir], dir);
    WithoutAbsent(dirs, dir);
  }

  class HomeLibrary {
    var dirs: seq<string>
    /** The list as last written to storage (`None` when nothing is
      stored, or what is stored does not parse). */
    var saved: Option<seq<string>>

    /** `loadDirs`: the stored list, or the empty list. */
    constructor(stored: Option<seq<string>>)
      ensures dirs == (match stored case Some(d) => d case None => [])
      ensures saved == stored
    {
      dirs := match stored case Some(d) => d case None => [];
      saved := stored;
    }

    /** `promptAddFolder`: when the dialog was not cancelled and returned a
      folder, its first folder is appended and the list stored, unless it is
      already listed. */
    method PromptAddFolder(canceled: bool, filePaths: seq<string>)
      modifies this
      ensures !canceled && filePaths != [] && filePaths[0] !in old(dirs) ==>
        dirs == old(dirs) + [filePaths[0]] && saved == Some(dirs)
      ensures canceled || filePaths == [] || filePaths[0] in old(dirs) ==>
        dirs == old(dirs) && saved == old(saved)
      ensures !canceled && filePaths != [] ==> dirs == AddDir(old(dirs), filePaths[0])
      ensures NoDuplicates(old(dirs)) ==> NoDuplicates(dirs)
    {
      if !canceled && |filePaths| > 0 {
        var dir := filePaths[0];
        if dir !in dirs {
          dirs := dirs + [dir];
          saved := Some(dirs);
        }
      }
    }

    /** `removeDir`: every copy of the folder goes, the rest keep their
      order, and the list is stored. */
    method RemoveDir(dir: string)
      modifies this
      ensures dirs == Without(old(dirs), dir)
      ensures saved == Some(dirs)
      ensures NoDuplicates(old(dirs)) ==> NoDuplicates(dirs)
    {
      dirs := Without(dirs, dir);
      saved := Some(dirs);
      if NoDuplicates(old(dirs)) {
        WithoutKeepsNoDuplicates(old(dirs), dir);
      }
    }
  }
}
