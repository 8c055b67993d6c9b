/** Result-file paths as the drivers build them: directory names, each
    followed by `/`, then the file name. */
module FilePaths {
  import opened JavaStrings

  /** The directory names in order, each followed by `/`. */
  function DirPath(dirs: seq<string>): string {
    if |dirs| == 0 then [] else dirs[0] + "/" + DirPath(dirs[1..])
  }

  /** One more directory at the end of a path. */
  lemma {:induction false} DirPathSnoc(dirs: seq<string>, dir: string)
    ensures DirPath(dirs + [dir]) == DirPath(dirs) + (dir + "/")
    decreases |dirs|
  {
    if |dirs| == 0 {
      assert dirs + [dir] == [dir];
      assert DirPath([dir]) == dir + "/" + DirPath([]);
    } else {
      DirPathSnoc(dirs[1..], dir);
      assert (dirs + [dir])[1..] == dirs[1..] + [dir];
    }
  }

  /** Splitting a path on `/` gives back its directory names and its file
      name, as long as none of them holds a `/`. */
  lemma {:induction false} PiecesOfPath(dirs: seq<string>, file: string)
    requires SeparatorFree(dirs, '/') && '/' !in file
    ensures Pieces(DirPath(dirs) + file, '/') == dirs + [file]
    decreases |dirs|
  {
    if |dirs| == 0 {
      assert DirPath(dirs) + file == file;
      PiecesOfSeparatorFree(file, '/');
    } else {
      var rest := dirs[1..];
      assert SeparatorFree(rest, '/') by {
        assert forall i :: 0 <= i < |rest| ==> rest[i] == dirs[i + 1];
      }
      PiecesOfPath(rest, file);
      assert '/' !in dirs[0];
      assert DirPath(dirs) + file == dirs[0] + ['/'] + (DirPath(rest) + file);
      PiecesCons(dirs[0], '/', DirPath(rest) + file);
      assert dirs + [file] == [dirs[0]] + (rest + [file]);
    }
  }

  /** A path determines its directory names and its file name. */
  lemma PathInjective(dirs1: seq<string>, file1: string, dirs2: seq<string>, file2: string)
    requires SeparatorFree(dirs1, '/') && '/' !in file1
    requires SeparatorFree(dirs2, '/') && '/' !in file2
    ensures DirPath(dirs1) + file1 == DirPath(dirs2) + file2 <==> dirs1 == dirs2 && file1 == file2
  {
    if DirPath(dirs1) + file1 == DirPath(dirs2) + file2 {
      PiecesOfPath(dirs1, file1);
      PiecesOfPath(dirs2, file2);
      var p1, p2 := dirs1 + [file1], dirs2 + [file2];
      assert p1 == p2;
      assert |dirs1| == |dirs2|;
      assert dirs1 == p1[..|dirs1|] && dirs2 == p2[..|dirs2|];
      assert file1 == p1[|dirs1|] && file2 == p2[|dirs2|];
    }
  }
}
