/** How the programs turn the file names of the `data/` directory into
    instance names (the drivers) and into the files whose results are read
    (the statistics programs). */
module InstanceFiles {
  import opened JavaStrings
  import opened Loops

  /** `getName().replaceAll(".vrp", "")`. The pattern is a regular
      expression: any character but a line terminator, then `vrp`. */
  function InstanceName(fileName: string): (name: string)
    ensures |name| <= |fileName|
    ensures (forall i :: 0 <= i < |fileName| ==> !MatchAt(fileName, i, "vrp")) ==> name == fileName
  {
    RemoveAnyThen(fileName, "vrp")
  }

  /** The names `runAllInstances` runs, in listing order: every file name
      with the pattern removed, names ending in `.opt` dropped. */
  function InstanceNames(listing: seq<string>): (names: seq<string>)
    ensures forall i :: 0 <= i < |names| ==> !EndsWith(names[i], ".opt")
    ensures |names| <= |listing|
  {
    if |listing| == 0 then []
    else
      var name := InstanceName(listing[0]);
      (if EndsWith(name, ".opt") then [] else [name]) + InstanceNames(listing[1..])
  }

  /** The files a statistics program reads results for, in the order given:
      every file whose name does not end in `.opt`. */
  function ResultFiles(files: seq<string>): (kept: seq<string>)
    ensures forall i :: 0 <= i < |kept| ==> !EndsWith(kept[i], ".opt")
    ensures multiset(kept) <= multiset(files)
  {
    if |files| == 0 then []
    else
      assert files == [files[0]] + files[1..];
      (if EndsWith(files[0], ".opt") then [] else [files[0]]) + ResultFiles(files[1..])
  }

  /** The naming the programs rely on: the name ends in the extension
      `.vrp`, and nowhere else does a character followed by `vrp` occur. */
  predicate IsPlainInstanceFile(f: string) {
    && EndsWith(f, ".vrp")
    && forall i: nat {:trigger MatchAt(f, i, "vrp")} :: i < |f| - 4 ==> !MatchAt(f, i, "vrp")
  }

  /** A file name the drivers and statistics programs treat alike: an
      optimum file (ending in `.opt`), or a plain instance file whose name
      without the extension does not itself end in `.opt`. */
  predicate IsListedFile(f: string) {
    EndsWith(f, ".opt") || (IsPlainInstanceFile(f) && !EndsWith(f[..|f| - 4], ".opt"))
  }

  lemma MatchAtTail(s: string, i: nat, lit: string)
    requires |s| > 0
    ensures MatchAt(s[1..], i, lit) <==> MatchAt(s, i + 1, lit)
  {
    if i + 1 + |lit| <= |s[1..]| {
      assert s[1..][i + 1..i + 1 + |lit|] == s[i + 2..i + 2 + |lit|];
    }
  }

  /** A plain instance file longer than its extension does not start with
      a match, and stays plain without its first character. */
  lemma PlainTail(f: string)
    requires IsPlainInstanceFile(f) && |f| > 4
    ensures !MatchAt(f, 0, "vrp") && !(".vrp" <= f)
    ensures IsPlainInstanceFile(f[1..])
  {
    assert !MatchAt(f, 0, "vrp");
    var tail := f[1..];
    EndsWithDrop(f, ".vrp", 1);
    forall i: nat | i < |tail| - 4
      ensures !MatchAt(tail, i, "vrp")
    {
      MatchAtTail(f, i, "vrp");
    }
  }

  /** Cutting the last four characters commutes with putting one in front. */
  lemma DropExtensionCons(f: string)
    requires |f| > 4
    ensures f[..|f| - 4] == [f[0]] + f[1..][..|f| - 5]
  {
  }

  /** On a plain instance file the regular expression removes just the
      extension. */
  lemma {:induction false} InstanceNameOfPlainFile(f: string)
    requires IsPlainInstanceFile(f)
    ensures InstanceName(f) == f[..|f| - 4]
    decreases |f|
  {
    if |f| == 4 {
      assert MatchAt(f, 0, "vrp");
      assert f[4..] == [];
    } else {
      PlainTail(f);
      InstanceNameOfPlainFile(f[1..]);
      DropExtensionCons(f);
    }
  }

  /** On a plain instance file `replace(".vrp", ".txt")` swaps the extension. */
  lemma {:induction false} ReplaceOfPlainFile(f: string)
    requires IsPlainInstanceFile(f)
    ensures ReplaceLiteral(f, ".vrp", ".txt") == f[..|f| - 4] + ".txt"
    decreases |f|
  {
    if |f| == 4 {
      assert ".vrp" <= f;
      assert f[4..] == [];
    } else {
      PlainTail(f);
      ReplaceOfPlainFile(f[1..]);
      DropExtensionCons(f);
      ConcatAssoc([f[0]], f[1..][..|f| - 5], ".txt");
    }
  }

  /** A match at the start of a name ending in `.opt` lies wholly before the extension. */
  lemma MatchBeforeOpt(f: string)
    requires EndsWith(f, ".opt") && MatchAt(f, 0, "vrp")
    ensures |f| >= 8
  {
    assert f[1..4] == "vrp";
    assert f[1] == 'v' && f[2] == 'r' && f[3] == 'p';
    var k := |f| - 4;
    assert f[k..] == ".opt";
    assert f[k] == '.' && f[k + 1] == 'o';
  }

  /** Removing the pattern never removes an `.opt` extension, so the drivers
      skip every optimum file the statistics programs skip. */
  lemma {:induction false} InstanceNameKeepsOpt(f: string)
    requires EndsWith(f, ".opt")
    ensures EndsWith(InstanceName(f), ".opt")
    decreases |f|
  {
    if |f| == 4 {
      assert f == ".opt";
      RemoveAnyThenWithoutLetter(f, "vrp");
    } else if MatchAt(f, 0, "vrp") {
      MatchBeforeOpt(f);
      EndsWithDrop(f, ".opt", 4);
      InstanceNameKeepsOpt(f[4..]);
      assert InstanceName(f) == InstanceName(f[4..]);
    } else {
      EndsWithDrop(f, ".opt", 1);
      InstanceNameKeepsOpt(f[1..]);
      assert InstanceName(f) == [f[0]] + InstanceName(f[1..]);
      EndsWithCons(f[0], InstanceName(f[1..]), ".opt");
    }
  }

  /** `"data/" + name + ".vrp"`, the instance file a driver's run reads. */
  function InputPath(name: string): string {
    "data/" + name + ".vrp"
  }

  /** The driver reopens the listed file: the input path of a name is the
      path of the file the name came from. */
  lemma InputPathRoundTrip(f: string)
    requires IsPlainInstanceFile(f)
    ensures InputPath(InstanceName(f)) == "data/" + f
  {
    InstanceNameOfPlainFile(f);
    assert f == f[..|f| - 4] + ".vrp";
  }

  /** Each file is a plain instance file named after the name at the same
      position. */
  predicate NamesMatchFiles(names: seq<string>, files: seq<string>) {
    && |names| == |files|
    && forall i :: 0 <= i < |files| ==> IsPlainInstanceFile(files[i]) && files[i] == names[i] + ".vrp"
  }

  lemma NamesMatchFilesCons(name: string, f: string, names: seq<string>, files: seq<string>)
    requires NamesMatchFiles(names, files)
    requires IsPlainInstanceFile(f) && f == name + ".vrp"
    ensures NamesMatchFiles([name] + names, [f] + files)
  {
    var ns, fs := [name] + names, [f] + files;
    forall i | 0 <= i < |fs|
      ensures IsPlainInstanceFile(fs[i]) && fs[i] == ns[i] + ".vrp"
    {
      if i > 0 {
        assert fs[i] == files[i - 1] && ns[i] == names[i - 1];
      }
    }
  }

  /** On a listing of well-formed names, the drivers run exactly the files
      the statistics programs read, in the same order, each under its name
      without the extension. */
  lemma {:induction false} InstanceNamesMatchResultFiles(listing: seq<string>)
    requires forall i :: 0 <= i < |listing| ==> IsListedFile(listing[i])
    ensures NamesMatchFiles(InstanceNames(listing), ResultFiles(listing))
    decreases |listing|
  {
    if |listing| > 0 {
      var f := listing[0];
      var names, files := InstanceNames(listing[1..]), ResultFiles(listing[1..]);
      InstanceNamesMatchResultFiles(listing[1..]);
      if EndsWith(f, ".opt") {
        InstanceNameKeepsOpt(f);
        assert InstanceNames(listing) == [] + names;
        assert ResultFiles(listing) == [] + files;
      } else {
        InstanceNameOfPlainFile(f);
        assert f == f[..|f| - 4] + ".vrp";
        NamesMatchFilesCons(InstanceName(f), f, names, files);
        assert InstanceNames(listing) == [InstanceName(f)] + names;
        assert ResultFiles(listing) == [f] + files;
      }
    } else {
      assert NamesMatchFiles([], []);
    }
  }

  /** A listing of the `data/` directory: distinct file names without a
      path separator, each of them listed alike by every program. */
  predicate WellFormedListing(listing: seq<string>) {
    && Distinct(listing)
    && forall i :: 0 <= i < |listing| ==> IsListedFile(listing[i]) && '/' !in listing[i]
  }

  /** Dropping names keeps a listing free of repeats. */
  lemma {:induction false} ResultFilesDistinct(files: seq<string>)
    requires Distinct(files)
    ensures Distinct(ResultFiles(files))
    decreases |files|
  {
    if |files| > 0 {
      DistinctTail(files);
      ResultFilesDistinct(files[1..]);
      var tail := ResultFiles(files[1..]);
      assert files[0] !in multiset(files[1..]);
      assert files[0] !in multiset(tail);
      if !EndsWith(files[0], ".opt") {
        DistinctCons(files[0], tail);
      }
      assert ResultFiles(files) == (if EndsWith(files[0], ".opt") then [] else [files[0]]) + tail;
    }
  }

  /** A file a statistics program reads results for is in the listing. */
  lemma ResultFileListed(files: seq<string>, f: string)
    requires f in ResultFiles(files)
    ensures f in files
  {
    assert f in multiset(ResultFiles(files));
  }

  /** The drivers run distinct names without a path separator. */
  lemma InstanceNamesWellFormed(listing: seq<string>)
    requires WellFormedListing(listing)
    ensures Distinct(InstanceNames(listing))
    ensures forall i :: 0 <= i < |InstanceNames(listing)| ==> '/' !in InstanceNames(listing)[i]
  {
    var names, files := InstanceNames(listing), ResultFiles(listing);
    InstanceNamesMatchResultFiles(listing);
    ResultFilesDistinct(listing);
    forall i | 0 <= i < |names|
      ensures '/' !in names[i]
    {
      ResultFileListed(listing, files[i]);
      assert names[i] == files[i][..|names[i]|];
    }
  }

  /** A file the statistics program reads results for, once the listing
      has been reordered, is a plain instance file of the listing whose
      name the drivers run. */
  lemma ResultFileOfReordered(listing: seq<string>, sorted: seq<string>, f: string)
    requires WellFormedListing(listing) && multiset(sorted) == multiset(listing)
    requires f in ResultFiles(sorted)
    ensures IsPlainInstanceFile(f) && '/' !in f
    ensures InstanceName(f) in InstanceNames(listing)
  {
    var names, files := InstanceNames(listing), ResultFiles(listing);
    ResultFilesPermutation(sorted, listing);
    assert f in multiset(ResultFiles(sorted));
    var j :| 0 <= j < |files| && files[j] == f;
    InstanceNamesMatchResultFiles(listing);
    ResultFileListed(listing, f);
    InstanceNameOfPlainFile(f);
    assert f[..|f| - 4] == names[j];
  }

  /** Dropping the `.opt` names keeps every other name as often as it was listed. */
  lemma {:induction false} ResultFilesMultiplicity(files: seq<string>, x: string)
    ensures multiset(ResultFiles(files))[x] == if EndsWith(x, ".opt") then 0 else multiset(files)[x]
    decreases |files|
  {
    if |files| > 0 {
      var head := if EndsWith(files[0], ".opt") then [] else [files[0]];
      var tail := ResultFiles(files[1..]);
      ResultFilesMultiplicity(files[1..], x);
      assert ResultFiles(files) == head + tail;
      MultiplicityAppend(head, tail, x);
      HeadTail(files);
      MultiplicityAppend([files[0]], files[1..], x);
    }
  }

  lemma MultiplicityAppend(a: seq<string>, b: seq<string>, x: string)
    ensures multiset(a + b)[x] == multiset(a)[x] + multiset(b)[x]
  {
  }

  /** Listings that are permutations of each other keep permutations of each other. */
  lemma ResultFilesPermutation(a: seq<string>, b: seq<string>)
    requires multiset(a) == multiset(b)
    ensures multiset(ResultFiles(a)) == multiset(ResultFiles(b))
  {
    forall x
      ensures multiset(ResultFiles(a))[x] == multiset(ResultFiles(b))[x]
    {
      ResultFilesMultiplicity(a, x);
      ResultFilesMultiplicity(b, x);
    }
  }

  /** `g` applied to each name, in order. */
  function Map(xs: seq<string>, g: string -> string): (ys: seq<string>)
    ensures |ys| == |xs|
    ensures forall i :: 0 <= i < |xs| ==> ys[i] == g(xs[i])
  {
    seq(|xs|, i requires 0 <= i < |xs| => g(xs[i]))
  }

  /** Taking out the element at `j` takes one copy of it out of the multiset. */
  lemma MultisetWithout(ys: seq<string>, j: nat)
    requires j < |ys|
    ensures multiset(ys) == multiset(ys[..j] + ys[j + 1..]) + multiset{ys[j]}
  {
    assert ys == ys[..j] + [ys[j]] + ys[j + 1..];
  }

  /** Mapping the sequence without its element at `j`. */
  lemma MapWithout(ys: seq<string>, j: nat, g: string -> string)
    requires j < |ys|
    ensures Map(ys[..j] + ys[j + 1..], g) == Map(ys, g)[..j] + Map(ys, g)[j + 1..]
  {
  }

  /** The mapped sequence is the mapped element at `j` together with the
      mapped rest. */
  lemma MapMultisetWithout(ys: seq<string>, j: nat, g: string -> string)
    requires j < |ys|
    ensures multiset(Map(ys, g)) == multiset(Map(ys[..j] + ys[j + 1..], g)) + multiset{g(ys[j])}
  {
    var mys := Map(ys, g);
    MapWithout(ys, j, g);
    MultisetWithout(mys, j);
  }

  /** Taking the first element of one sequence out of a permutation of it
      leaves a permutation of the rest. */
  lemma SameWithout(xs: seq<string>, ys: seq<string>, j: nat)
    requires multiset(xs) == multiset(ys)
    requires 0 < |xs| && j < |ys| && xs[0] == ys[j]
    ensures multiset(xs[1..]) == multiset(ys[..j] + ys[j + 1..])
  {
    MultisetWithout(ys, j);
    assert xs == [xs[0]] + xs[1..];
    assert multiset(xs[1..]) == multiset(xs) - multiset{xs[0]};
    assert multiset(ys[..j] + ys[j + 1..]) == multiset(ys) - multiset{ys[j]};
  }

  /** The mapped sequence is the mapped first element together with the
      mapped rest. */
  lemma MapMultisetHead(xs: seq<string>, g: string -> string)
    requires 0 < |xs|
    ensures multiset(Map(xs, g)) == multiset(Map(xs[1..], g)) + multiset{g(xs[0])}
  {
    var mxs := Map(xs, g);
    assert mxs == [g(xs[0])] + Map(xs[1..], g);
  }

  /** Mapping a permutation gives a permutation of the mapped sequence. */
  lemma {:induction false} MapPermutation(xs: seq<string>, ys: seq<string>, g: string -> string)
    requires multiset(xs) == multiset(ys)
    ensures multiset(Map(xs, g)) == multiset(Map(ys, g))
    decreases |xs|
  {
    if |xs| == 0 {
      assert |ys| == |multiset(ys)| == 0;
      assert Map(xs, g) == [] == Map(ys, g);
    } else {
      var x := xs[0];
      assert x in multiset(ys);
      var j :| 0 <= j < |ys| && ys[j] == x;
      SameWithout(xs, ys, j);
      MapPermutation(xs[1..], ys[..j] + ys[j + 1..], g);
      MapMultisetWithout(ys, j, g);
      MapMultisetHead(xs, g);
    }
  }
}
