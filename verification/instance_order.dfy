/** `fileOrderComparator` of the statistics programs: instance files named
    like `A-n32-k5.vrp` are ordered by customer count `n`, then by vehicle
    count `k`. */
module InstanceOrder {
  import opened Wrappers
  import opened JavaStrings
  import opened JavaIntegers

  /** `(n, k)` */
  type Key = (int, int)

  /** `Integer.parseInt(data[1].replaceAll("n", "").trim())` with
      `data = name.split("-")`. */
  function NField(name: string): (r: Result<int, JavaError>)
    ensures '-' !in name ==> r == Failure(IndexOutOfBounds)
    ensures r.Failure? ==> r.error == IndexOutOfBounds || r.error == NumberFormat
    ensures r.Success? ==> INT_MIN <= r.value <= INT_MAX
  {
    var data := Split(name, '-');
    if |data| < 2 then Failure(IndexOutOfBounds)
    else ParseInt(Trim(RemoveChar(data[1], 'n')))
  }

  /** `Integer.parseInt(data[2].split("\\.")[0].replaceAll(".vrp", "")
      .replaceAll(".opt", "").replaceAll("k", "").trim())`. */
  function KField(name: string): (r: Result<int, JavaError>)
    ensures '-' !in name ==> r == Failure(IndexOutOfBounds)
    ensures r.Failure? ==> r.error == IndexOutOfBounds || r.error == NumberFormat
    ensures r.Success? ==> INT_MIN <= r.value <= INT_MAX
  {
    var data := Split(name, '-');
    if |data| < 3 then Failure(IndexOutOfBounds)
    else
      var parts := Split(data[2], '.');
      if |parts| == 0 then Failure(IndexOutOfBounds)
      else ParseInt(Trim(RemoveChar(RemoveAnyThen(RemoveAnyThen(parts[0], "vrp"), "opt"), 'k')))
  }

  /** Both fields of a name, the first failure winning. */
  function KeyOf(name: string): (r: Result<Key, JavaError>)
    ensures NField(name).Failure? ==> r == Failure(NField(name).error)
    ensures r.Success? <==> NField(name).Success? && KField(name).Success?
    ensures r.Failure? ==> r.error == IndexOutOfBounds || r.error == NumberFormat
  {
    var n :- NField(name);
    var k :- KField(name);
    Success((n, k))
  }

  predicate HasKey(name: string) {
    KeyOf(name).Success?
  }

  /** Lexicographic order on `(n, k)`. */
  predicate LexLess(a: Key, b: Key) {
    a.0 < b.0 || (a.0 == b.0 && a.1 < b.1)
  }

  predicate LexLeq(a: Key, b: Key) {
    LexLess(a, b) || a == b
  }

  /** The comparator: it parses `n1`, `n2`, `k1`, `k2` in that order, so
      it throws exactly when one of the two names has no key. */
  function Compare(f1: string, f2: string): (r: Result<int, JavaError>)
    ensures r.Success? <==> HasKey(f1) && HasKey(f2)
    ensures r.Success? ==> -1 <= r.value <= 1
    ensures r.Success? ==> (r.value < 0 <==> LexLess(KeyOf(f1).value, KeyOf(f2).value))
    ensures r.Success? ==> (r.value == 0 <==> KeyOf(f1).value == KeyOf(f2).value)
  {
    var n1 :- NField(f1);
    var n2 :- NField(f2);
    var k1 :- KField(f1);
    var k2 :- KField(f2);
    var res := JavaIntegers.Compare(n1, n2);
    Success(if res == 0 then JavaIntegers.Compare(k1, k2) else res)
  }

  /** Swapping the arguments negates the result. */
  lemma CompareAntisymmetric(f1: string, f2: string)
    requires Compare(f1, f2).Success?
    ensures Compare(f2, f1).Success?
    ensures Compare(f2, f1).value == -Compare(f1, f2).value
  {
  }

  /** "Not after" is transitive. */
  lemma CompareTransitive(f1: string, f2: string, f3: string)
    requires Compare(f1, f2).Success? && Compare(f2, f3).Success?
    requires Compare(f1, f2).value <= 0 && Compare(f2, f3).value <= 0
    ensures Compare(f1, f3).Success? && Compare(f1, f3).value <= 0
  {
  }

  /** The name of instance `<prefix>-n<n>-k<k><ext>`, as in `A-n32-k5.vrp`. */
  function InstanceFileName(prefix: string, n: nat, k: nat, ext: string): string {
    prefix + "-n" + IntToString(n) + "-k" + IntToString(k) + ext
  }

  /** A letter followed by digits holds no `-`. */
  lemma LetterDigitsDashFree(letter: char, digits: string)
    requires letter != '-' && AllDigits(digits)
    ensures '-' !in [letter] + digits
  {
    assert forall i :: 0 <= i < |digits| ==> digits[i] != '-';
  }

  /** Three separator-free parts joined by two separators split back into them. */
  lemma PiecesOfThree(a: string, b: string, d: string, c: char)
    requires c !in a && c !in b && c !in d
    ensures Pieces(a + [c] + b + [c] + d, c) == [a, b, d]
  {
    var tail := b + [c] + d;
    assert Pieces(tail, c) == [b, d] by {
      PiecesCons(b, c, d);
      PiecesOfSeparatorFree(d, c);
    }
    assert a + [c] + b + [c] + d == a + [c] + tail;
    PiecesCons(a, c, tail);
  }

  /** The three `-`-fields of an instance file name. */
  lemma SplitInstanceFileName(prefix: string, n: nat, k: nat, ext: string)
    requires '-' !in prefix && '-' !in ext
    ensures Split(InstanceFileName(prefix, n, k, ext), '-')
         == [prefix, "n" + IntToString(n), "k" + IntToString(k) + ext]
  {
    var fieldN, fieldK := "n" + IntToString(n), "k" + IntToString(k) + ext;
    LetterDigitsDashFree('n', IntToString(n));
    LetterDigitsDashFree('k', IntToString(k));
    assert '-' !in fieldK;
    assert InstanceFileName(prefix, n, k, ext) == prefix + ['-'] + fieldN + ['-'] + fieldK;
    PiecesOfThree(prefix, fieldN, fieldK, '-');
    SplitKeepsAllPieces(InstanceFileName(prefix, n, k, ext), '-');
  }

  /** Digits survive the removal of a leading letter and trimming. */
  lemma StripLetter(letter: char, digits: string)
    requires AllDigits(digits) && !IsDigit(letter)
    ensures Trim(RemoveChar([letter] + digits, letter)) == digits
  {
    assert letter !in digits;
    assert RemoveChar([letter] + digits, letter) == RemoveChar(digits, letter);
  }

  /** The `n` field of an instance file name. */
  lemma NFieldOfInstanceFileName(prefix: string, n: nat, k: nat, ext: string)
    requires '-' !in prefix && '-' !in ext
    requires n <= INT_MAX
    ensures NField(InstanceFileName(prefix, n, k, ext)) == Success(n)
  {
    SplitInstanceFileName(prefix, n, k, ext);
    StripLetter('n', IntToString(n));
    ParseIntToString(n);
  }

  /** The part of the third field before its first `.`. */
  lemma FirstDotPiece(head: string, ext: string)
    requires |head| > 0 && '.' !in head
    requires ext == [] || ext[0] == '.'
    ensures |Split(head + ext, '.')| >= 1 && Split(head + ext, '.')[0] == head
  {
    if ext == [] {
      assert head + ext == head;
      PiecesOfSeparatorFree(head, '.');
    } else {
      assert head + ext == head + ['.'] + ext[1..];
      PiecesCons(head, '.', ext[1..]);
    }
    SplitKeepsFirstPiece(head + ext, '.');
  }

  /** The `k` field of an instance file name. */
  lemma KFieldOfInstanceFileName(prefix: string, n: nat, k: nat, ext: string)
    requires '-' !in prefix && '-' !in ext
    requires ext == [] || ext[0] == '.'
    requires k <= INT_MAX
    ensures KField(InstanceFileName(prefix, n, k, ext)) == Success(k)
  {
    SplitInstanceFileName(prefix, n, k, ext);
    var dk := IntToString(k);
    var head := "k" + dk;
    assert forall i :: 0 <= i < |head| ==> head[i] == 'k' || IsDigit(head[i]);
    assert "k" + dk + ext == head + ext;
    FirstDotPiece(head, ext);
    RemoveAnyThenWithoutLetter(head, "vrp");
    RemoveAnyThenWithoutLetter(head, "opt");
    StripLetter('k', dk);
    ParseIntToString(k);
  }

  /** A name built from `n` and `k` parses back to `(n, k)`, whatever its
      prefix and extension, as long as neither holds a `-` and the extension
      is empty or starts with a `.`. */
  lemma KeyOfInstanceFileName(prefix: string, n: nat, k: nat, ext: string)
    requires '-' !in prefix && '-' !in ext
    requires ext == [] || ext[0] == '.'
    requires n <= INT_MAX && k <= INT_MAX
    ensures KeyOf(InstanceFileName(prefix, n, k, ext)) == Success((n, k))
  {
    NFieldOfInstanceFileName(prefix, n, k, ext);
    KFieldOfInstanceFileName(prefix, n, k, ext);
  }

  /** Two instance files compare by `n` first and `k` second. */
  lemma CompareInstanceFileNames(p1: string, n1: nat, k1: nat, e1: string, p2: string, n2: nat, k2: nat, e2: string)
    requires '-' !in p1 && '-' !in e1 && (e1 == [] || e1[0] == '.') && n1 <= INT_MAX && k1 <= INT_MAX
    requires '-' !in p2 && '-' !in e2 && (e2 == [] || e2[0] == '.') && n2 <= INT_MAX && k2 <= INT_MAX
    ensures Compare(InstanceFileName(p1, n1, k1, e1), InstanceFileName(p2, n2, k2, e2)).Success?
    ensures var r := Compare(InstanceFileName(p1, n1, k1, e1), InstanceFileName(p2, n2, k2, e2)).value;
            (r < 0 <==> n1 < n2 || (n1 == n2 && k1 < k2)) && (r == 0 <==> n1 == n2 && k1 == k2)
  {
    var f1, f2 := InstanceFileName(p1, n1, k1, e1), InstanceFileName(p2, n2, k2, e2);
    KeyOfInstanceFileName(p1, n1, k1, e1);
    KeyOfInstanceFileName(p2, n2, k2, e2);
    assert HasKey(f1) && HasKey(f2);
    assert KeyOf(f1).value == (n1, k1) && KeyOf(f2).value == (n2, k2);
  }

  // ---------------------------------------------------------------------
  // Sorting the listing with the comparator (`sorted(fileOrderComparator)`).

  /** A listed file with its parsed key. */
  type Entry = (string, Key)

  /** Ordered by key: no entry has a larger key than one after it. */
  ghost predicate SortedEntries(es: seq<Entry>) {
    forall i, j :: 0 <= i < j < |es| ==> LexLeq(es[i].1, es[j].1)
  }

  /** Every entry carries the key `keyOf` gives its name. */
  ghost predicate KeyedCorrectly(es: seq<Entry>, keyOf: string -> Result<Key, JavaError>) {
    forall i :: 0 <= i < |es| ==> keyOf(es[i].0) == Success(es[i].1)
  }

  /** `e` placed before the first entry whose key is not smaller. */
  function Insert(e: Entry, sorted: seq<Entry>): (r: seq<Entry>)
    ensures multiset(r) == multiset(sorted) + multiset{e}
  {
    if |sorted| == 0 then [e]
    else if LexLeq(e.1, sorted[0].1) then [e] + sorted
    else
      assert sorted == [sorted[0]] + sorted[1..];
      [sorted[0]] + Insert(e, sorted[1..])
  }

  /** No entry of `es` has a key below `bound`. */
  ghost predicate AllAtLeast(es: seq<Entry>, bound: Key) {
    forall j :: 0 <= j < |es| ==> LexLeq(bound, es[j].1)
  }

  /** An entry not below any key of an ordered sequence may go in front. */
  lemma ConsSorted(x: Entry, es: seq<Entry>)
    requires SortedEntries(es) && AllAtLeast(es, x.1)
    ensures SortedEntries([x] + es)
  {
    var r := [x] + es;
    forall i, j | 0 <= i < j < |r|
      ensures LexLeq(r[i].1, r[j].1)
    {
      assert r[j] == es[j - 1];
      if i > 0 {
        assert r[i] == es[i - 1];
      }
    }
  }

  /** A lower bound of the entries and of `e` bounds the result of the insertion. */
  lemma InsertAtLeast(e: Entry, es: seq<Entry>, bound: Key)
    requires AllAtLeast(es, bound) && LexLeq(bound, e.1)
    ensures AllAtLeast(Insert(e, es), bound)
  {
    var r := Insert(e, es);
    forall j | 0 <= j < |r|
      ensures LexLeq(bound, r[j].1)
    {
      assert r[j] in multiset(r);
      if r[j] != e {
        assert r[j] in multiset(es);
        var m :| 0 <= m < |es| && es[m] == r[j];
      }
    }
  }

  /** Inserting into an ordered sequence keeps it ordered. */
  lemma {:induction false} InsertSorted(e: Entry, sorted: seq<Entry>)
    requires SortedEntries(sorted)
    ensures SortedEntries(Insert(e, sorted))
    decreases |sorted|
  {
    if |sorted| == 0 {
    } else if LexLeq(e.1, sorted[0].1) {
      assert AllAtLeast(sorted, e.1);
      ConsSorted(e, sorted);
    } else {
      var tail := sorted[1..];
      InsertSorted(e, tail);
      assert AllAtLeast(tail, sorted[0].1) by {
        assert forall j :: 0 <= j < |tail| ==> tail[j] == sorted[j + 1];
      }
      InsertAtLeast(e, tail, sorted[0].1);
      ConsSorted(sorted[0], Insert(e, tail));
    }
  }

  /** Insertion sort by key. */
  function SortEntries(es: seq<Entry>): (r: seq<Entry>)
    ensures multiset(r) == multiset(es)
  {
    if |es| == 0 then []
    else
      assert es == [es[0]] + es[1..];
      Insert(es[0], SortEntries(es[1..]))
  }

  /** The insertion sort orders by key. */
  lemma {:induction false} SortEntriesSorted(es: seq<Entry>)
    ensures SortedEntries(SortEntries(es))
    decreases |es|
  {
    if |es| > 0 {
      SortEntriesSorted(es[1..]);
      InsertSorted(es[0], SortEntries(es[1..]));
    }
  }

  /** The file names of the entries, in order. */
  function Names(es: seq<Entry>): seq<string> {
    seq(|es|, i requires 0 <= i < |es| => es[i].0)
  }

  /** Inserting an entry adds its name. */
  lemma {:induction false} NamesOfInsert(e: Entry, sorted: seq<Entry>)
    ensures multiset(Names(Insert(e, sorted))) == multiset(Names(sorted)) + multiset{e.0}
    decreases |sorted|
  {
    if |sorted| == 0 {
      assert Names([e]) == [e.0];
    } else if LexLeq(e.1, sorted[0].1) {
      NamesCons(e, sorted);
    } else {
      var head, tail := sorted[0], sorted[1..];
      var rest := Insert(e, tail);
      NamesOfInsert(e, tail);
      NamesCons(head, rest);
      NamesCons(head, tail);
      assert Names(Insert(e, sorted)) == [head.0] + Names(rest);
      assert Names(sorted) == [head.0] + Names(tail) by {
        assert sorted == [head] + tail;
      }
    }
  }

  /** Sorting keeps the names, each as often as before. */
  lemma {:induction false} NamesOfSortEntries(es: seq<Entry>)
    ensures multiset(Names(SortEntries(es))) == multiset(Names(es))
    decreases |es|
  {
    if |es| > 0 {
      NamesOfSortEntries(es[1..]);
      NamesOfInsert(es[0], SortEntries(es[1..]));
      NamesCons(es[0], es[1..]);
      assert [es[0]] + es[1..] == es;
    }
  }

  /** A permutation of correctly keyed entries is correctly keyed. */
  lemma KeyedPermutation(es: seq<Entry>, other: seq<Entry>, keyOf: string -> Result<Key, JavaError>)
    requires KeyedCorrectly(es, keyOf) && multiset(other) == multiset(es)
    ensures KeyedCorrectly(other, keyOf)
  {
    forall i | 0 <= i < |other|
      ensures keyOf(other[i].0) == Success(other[i].1)
    {
      assert other[i] in multiset(es);
      var m :| 0 <= m < |es| && es[m] == other[i];
    }
  }

  /** Every file paired with its key, or the first key that fails to parse. */
  function Keyed(files: seq<string>, keyOf: string -> Result<Key, JavaError>): (r: Result<seq<Entry>, JavaError>)
    ensures r.Success? ==> Names(r.value) == files
  {
    if |files| == 0 then Success([])
    else
      var key := keyOf(files[0]);
      var rest := Keyed(files[1..], keyOf);
      if key.Failure? then Failure(key.error)
      else if rest.Failure? then Failure(rest.error)
      else
        NamesCons((files[0], key.value), rest.value);
        Success([(files[0], key.value)] + rest.value)
  }

  /** The names of an entry followed by others. */
  lemma NamesCons(e: Entry, es: seq<Entry>)
    ensures Names([e] + es) == [e.0] + Names(es)
  {
    assert ([e] + es)[1..] == es;
  }

  /** Keying succeeds exactly when every file has a key, and then pairs
      each file with its key. */
  lemma {:induction false} KeyedSpec(files: seq<string>, keyOf: string -> Result<Key, JavaError>)
    ensures Keyed(files, keyOf).Success? <==> forall i :: 0 <= i < |files| ==> keyOf(files[i]).Success?
    ensures Keyed(files, keyOf).Success? ==> KeyedCorrectly(Keyed(files, keyOf).value, keyOf)
    decreases |files|
  {
    if |files| > 0 {
      var tail := files[1..];
      KeyedSpec(tail, keyOf);
      assert forall i :: 1 <= i < |files| ==> files[i] == tail[i - 1];
      if keyOf(files[0]).Success? && Keyed(tail, keyOf).Success? {
        var rest := Keyed(tail, keyOf).value;
        var r := Keyed(files, keyOf).value;
        assert r == [(files[0], keyOf(files[0]).value)] + rest;
        forall i | 0 <= i < |r|
          ensures keyOf(r[i].0) == Success(r[i].1)
        {
          if i > 0 {
            assert r[i] == rest[i - 1];
          }
        }
      }
    }
  }

  /** Whether `names` is ordered by the comparator: no name compares
      greater than one after it. */
  ghost predicate SortedByComparator(names: seq<string>) {
    forall i, j :: 0 <= i < j < |names| ==>
      Compare(names[i], names[j]).Success? && Compare(names[i], names[j]).value <= 0
  }

  /** Correctly keyed entries ordered by key have names ordered by the
      comparator. */
  lemma SortedNames(es: seq<Entry>)
    requires KeyedCorrectly(es, KeyOf) && SortedEntries(es)
    ensures SortedByComparator(Names(es))
  {
    var names := Names(es);
    forall i, j | 0 <= i < j < |names|
      ensures Compare(names[i], names[j]).Success? && Compare(names[i], names[j]).value <= 0
    {
      assert KeyOf(names[i]) == Success(es[i].1);
      assert KeyOf(names[j]) == Success(es[j].1);
      assert LexLeq(es[i].1, es[j].1);
    }
  }

  /** The listing sorted with the comparator. A listing of fewer than two
      files is returned untouched without calling the comparator; any
      longer one throws exactly when some name has no key. */
  function SortInstances(files: seq<string>): (r: Result<seq<string>, JavaError>)
    ensures |files| < 2 ==> r == Success(files)
    ensures |files| >= 2 ==> (r.Success? <==> forall i :: 0 <= i < |files| ==> HasKey(files[i]))
    ensures r.Success? ==> multiset(r.value) == multiset(files)
    ensures r.Success? ==> SortedByComparator(r.value)
  {
    if |files| < 2 then Success(files)
    else
      KeyedSpec(files, KeyOf);
      var keyed := Keyed(files, KeyOf);
      if keyed.Failure? then Failure(keyed.error)
      else
        var sorted := SortEntries(keyed.value);
        SortEntriesSorted(keyed.value);
        KeyedPermutation(keyed.value, sorted, KeyOf);
        NamesOfSortEntries(keyed.value);
        SortedNames(sorted);
        Success(Names(sorted))
  }
}
