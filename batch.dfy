/**
 * The `{'success', 'failed', 'errors'}` record that `convert_batch` builds, the
 * per-file update both of its branches apply, and what the fold of those
 * updates over the discovered files promises.
 */
module Batch {
  import opened Wrappers
  import opened Paths
  import opened Conversion

  datatype BatchReport = BatchReport(success: nat, failed: nat, errors: map<string, string>)

  const EmptyReport := BatchReport(0, 0, map[])

  /** One collected result: the file's name and what `convert_single` gave for it. */
  datatype Item = Item(name: string, result: CallResult)

  predicate Succeeded(r: CallResult)
  {
    r.Returned? && r.success
  }

  /** The error text recorded for a failure: the returned message, or `str(e)` of an escaped exception. */
  function Message(r: CallResult): string
  {
    if r.Returned? then r.text else r.error
  }

  /** The per-file update of the results record. */
  function Record(rep: BatchReport, it: Item): BatchReport
  {
    if Succeeded(it.result) then rep.(success := rep.success + 1)
    else rep.(failed := rep.failed + 1, errors := rep.errors[it.name := Message(it.result)])
  }

  /** The results record after collecting `items` in order. */
  function Fold(items: seq<Item>): BatchReport
  {
    if |items| == 0 then EmptyReport
    else Record(Fold(items[..|items| - 1]), items[|items| - 1])
  }

  /** The number of collected results that are successes. */
  function Successes(items: seq<Item>): nat
  {
    if |items| == 0 then 0
    else Successes(items[..|items| - 1]) + (if Succeeded(items[|items| - 1].result) then 1 else 0)
  }

  predicate FailedAs(it: Item, name: string)
  {
    it.name == name && !Succeeded(it.result)
  }

  /** Two results under one name are the same result. */
  predicate NamesDetermineItems(items: seq<Item>)
  {
    forall x, y :: x in items && y in items && x.name == y.name ==> x == y
  }

  predicate DistinctItemNames(items: seq<Item>)
  {
    forall i, j :: 0 <= i < j < |items| ==> items[i].name != items[j].name
  }

  // ---------------------------------------------------------------------------
  // The discovered files and the results their conversions give

  /** `output_path / pdf_file.with_suffix('.docx').name` */
  function Target(outFolder: string, pdfFile: string): string
    requires Name(pdfFile) != ""
  {
    Join(outFolder, Name(WithDocxSuffix(pdfFile).value))
  }

  /** Each file is converted into the output folder, under its own stem with ".docx". */
  lemma TargetName(outFolder: string, pdfFile: string)
    requires Name(pdfFile) != ""
    ensures Name(Target(outFolder, pdfFile)) == Stem(Name(pdfFile)) + DocxSuffix
    ensures Target(outFolder, pdfFile) == Join(outFolder, Stem(Name(pdfFile)) + DocxSuffix)
  {
    DocxName(pdfFile);
    JoinName(outFolder, Stem(Name(pdfFile)) + DocxSuffix);
  }

  /** The result collected for one discovered file. */
  function ItemFor(outFolder: string, world: World, pdfFile: string): (it: Item)
    requires Name(pdfFile) != ""
    ensures it.name == Name(pdfFile)
    ensures it.result.Returned?   // with the output path given, convert_single never raises
  {
    Item(Name(pdfFile), Reply(Attempted(pdfFile, Some(Target(outFolder, pdfFile)), 0, None, world)))
  }

  /** The counters move as the collected result says, except that a vanished input moves neither. */
  lemma TallyFollowsItem(stats: Stats, outFolder: string, world: World, pdfFile: string)
    requires Name(pdfFile) != ""
    ensures var a := Attempted(pdfFile, Some(Target(outFolder, pdfFile)), 0, None, world);
      var ok := Succeeded(ItemFor(outFolder, world, pdfFile).result);
      && Tally(stats, a).success == stats.success + (if ok then 1 else 0)
      && Tally(stats, a).failed == stats.failed + (if ok || !world.pathExists(pdfFile) then 0 else 1)
  {
  }

  /** How many of `files` no longer exist when their turn comes (a failure that the counters skip). */
  function Vanished(files: seq<string>, world: World): (n: nat)
    ensures n <= |files|
  {
    if |files| == 0 then 0
    else Vanished(files[..|files| - 1], world) + (if world.pathExists(files[|files| - 1]) then 0 else 1)
  }

  lemma {:induction false} NoneVanished(files: seq<string>, world: World)
    requires forall f :: f in files ==> world.pathExists(f)
    ensures Vanished(files, world) == 0
  {
    if |files| > 0 {
      assert files[|files| - 1] in files;
      assert forall f :: f in files[..|files| - 1] ==> f in files;
      NoneVanished(files[..|files| - 1], world);
    }
  }

  /** Counting vanished files distributes over concatenation. */
  lemma {:induction false} VanishedAppend(a: seq<string>, b: seq<string>, world: World)
    ensures Vanished(a + b, world) == Vanished(a, world) + Vanished(b, world)
  {
    if |b| == 0 {
      assert a + b == a;
    } else {
      var b' := b[..|b| - 1];
      assert (a + b)[..|a + b| - 1] == a + b';
      VanishedAppend(a, b', world);
    }
  }

  /** How many files vanish depends only on which files are visited, not on their order. */
  lemma {:induction false} VanishedPermutation(a: seq<string>, b: seq<string>, world: World)
    requires multiset(a) == multiset(b)
    ensures Vanished(a, world) == Vanished(b, world)
  {
    if |a| > 0 {
      var n := |a| - 1;
      assert a[n] in multiset(b);
      var j :| 0 <= j < |b| && b[j] == a[n];
      RemoveMatching(a, b, j);
      VanishedPermutation(a[..n], b[..j] + b[j + 1..], world);
      VanishedRemove(b, j, world);
    } else {
      assert |b| == |multiset(b)| == 0;
    }
  }

  /** Taking the last element off `a` and a matching one off `b` keeps the two multisets equal. */
  lemma RemoveMatching<T>(a: seq<T>, b: seq<T>, j: nat)
    requires multiset(a) == multiset(b) && |a| > 0 && j < |b| && b[j] == a[|a| - 1]
    ensures multiset(a[..|a| - 1]) == multiset(b[..j] + b[j + 1..])
  {
    var n := |a| - 1;
    var x := a[n];
    assert a == a[..n] + [x];
    assert b == b[..j] + [x] + b[j + 1..];
    assert multiset(a[..n]) == multiset(a) - multiset{x};
    assert multiset(b[..j] + b[j + 1..]) == multiset(b) - multiset{x};
  }

  /** Removing one file from the list removes its share of the vanished count. */
  lemma VanishedRemove(b: seq<string>, j: nat, world: World)
    requires j < |b|
    ensures Vanished(b, world) == Vanished(b[..j] + b[j + 1..], world) + (if world.pathExists(b[j]) then 0 else 1)
  {
    var x := b[j];
    assert b == (b[..j] + [x]) + b[j + 1..];
    VanishedAppend(b[..j] + [x], b[j + 1..], world);
    VanishedAppend(b[..j], [x], world);
    VanishedAppend(b[..j], b[j + 1..], world);
    assert [x][..0] == [];
  }

  /** Every path a glob yields names a file. */
  predicate Named(files: seq<string>)
  {
    forall f :: f in files ==> Name(f) != ""
  }

  /**
   * The collector of one file's result, as a function value; a path without a
   * name, which the glob never yields, gets a placeholder.
   */
  function Collector(outFolder: string, world: World): string -> Item
  {
    f => if Name(f) != "" then ItemFor(outFolder, world, f) else Item("", Raised(""))
  }

  /** The results collected for `files`, in their order. */
  function Items(files: seq<string>, outFolder: string, world: World): (r: seq<Item>)
    requires Named(files)
    ensures |r| == |files|
    ensures forall i :: 0 <= i < |files| ==> r[i] == ItemFor(outFolder, world, files[i])
  {
    MapSeq(files, Collector(outFolder, world))
  }

  /** `[g(x) for x in s]` */
  function MapSeq<A, B>(s: seq<A>, g: A -> B): seq<B>
  {
    seq(|s|, i requires 0 <= i < |s| => g(s[i]))
  }

  /** Mapping one more element appends its image. */
  lemma MapSeqSnoc<A, B>(s: seq<A>, i: nat, g: A -> B)
    requires i < |s|
    ensures MapSeq(s[..i + 1], g) == MapSeq(s[..i], g) + [g(s[i])]
  {
  }

  /** The fold of one more result is the per-file update of the fold so far. */
  lemma FoldSnoc(items: seq<Item>, it: Item)
    ensures Fold(items + [it]) == Record(Fold(items), it)
  {
    assert (items + [it])[..|items|] == items;
  }

  /** Collecting one more file applies the per-file update to the record so far. */
  lemma FoldStep(files: seq<string>, i: nat, out: string, world: World)
    requires Named(files) && i < |files|
    ensures Named(files[..i]) && Named(files[..i + 1])
    ensures Fold(Items(files[..i + 1], out, world))
      == Record(Fold(Items(files[..i], out, world)), ItemFor(out, world, files[i]))
  {
    MapSeqSnoc(files, i, Collector(out, world));
    FoldSnoc(Items(files[..i], out, world), ItemFor(out, world, files[i]));
  }

  /**
   * One turn of the collecting loop: recording the file's result extends the
   * fold by that file, and the counters keep following the record.
   */
  lemma CollectStep(files: seq<string>, i: nat, out: string, world: World,
                    results: BatchReport, r: CallResult, base: Stats, before: Stats, after: Stats)
    requires Named(files) && i < |files| && Named(files[..i])
    requires results == Fold(Items(files[..i], out, world))
    requires before.success == base.success + results.success
    requires before.failed + Vanished(files[..i], world) == base.failed + results.failed
    requires r == Reply(Attempted(files[i], Some(Target(out, files[i])), 0, None, world))
    requires after == Tally(before, Attempted(files[i], Some(Target(out, files[i])), 0, None, world))
    ensures Named(files[..i + 1])
    ensures var next := Record(results, Item(Name(files[i]), r));
      && next == Fold(Items(files[..i + 1], out, world))
      && after.success == base.success + next.success
      && after.failed + Vanished(files[..i + 1], world) == base.failed + next.failed
  {
    var it := Item(Name(files[i]), r);
    assert it == ItemFor(out, world, files[i]);
    FoldStep(files, i, out, world);
    TallyFollowsItem(before, out, world, files[i]);
    if !world.pathExists(files[i]) {
      MissingInputFailsFast(files[i], Some(Target(out, files[i])), 0, None, world, before);
    }
    CountersStep(files, i, world, results, it, base, before, after);
  }

  lemma CountersStep(files: seq<string>, i: nat, world: World,
                     results: BatchReport, it: Item, base: Stats, before: Stats, after: Stats)
    requires i < |files|
    requires Succeeded(it.result) ==> world.pathExists(files[i])
    requires before.success == base.success + results.success
    requires before.failed + Vanished(files[..i], world) == base.failed + results.failed
    requires after.success == before.success + (if Succeeded(it.result) then 1 else 0)
    requires after.failed == before.failed
      + (if Succeeded(it.result) || !world.pathExists(files[i]) then 0 else 1)
    ensures var next := Record(results, it);
      && after.success == base.success + next.success
      && after.failed + Vanished(files[..i + 1], world) == base.failed + next.failed
  {
    assert files[..i + 1][..i] == files[..i];
    assert Vanished(files[..i + 1], world)
      == Vanished(files[..i], world) + (if world.pathExists(files[i]) then 0 else 1);
  }

  /** `output_folder`, defaulting to the input folder. */
  function OutputFolder(inputFolder: string, outputFolder: Option<string>): string
  {
    if outputFolder.Some? then outputFolder.value else inputFolder
  }

  /** The parallel branch is taken only with multi-processing enabled and more than one file. */
  predicate Parallel(multiProcessing: bool, discovered: seq<string>)
  {
    multiProcessing && |discovered| > 1
  }

  /**
   * What `convert_batch` returns: nothing for a missing folder or an empty
   * glob; otherwise the fold over the files, in glob order when sequential and
   * in completion order (`completed`) when parallel.
   */
  function BatchResult(multiProcessing: bool, inputFolder: string, outputFolder: Option<string>,
                       discovered: seq<string>, completed: seq<string>, world: World): BatchReport
    requires Named(discovered) && multiset(completed) == multiset(discovered)
  {
    if !world.pathExists(inputFolder) || |discovered| == 0 then EmptyReport
    else
      var out := OutputFolder(inputFolder, outputFolder);
      assert Named(completed) by {
        forall f | f in completed ensures Name(f) != "" {
          assert f in multiset(completed);
        }
      }
      Fold(Items(if Parallel(multiProcessing, discovered) then completed else discovered, out, world))
  }

  // ---------------------------------------------------------------------------
  // Lemmas about the fold

  /** The counters count the results: successes and failures add up to the number collected. */
  lemma {:induction false} FoldCounts(items: seq<Item>)
    ensures Fold(items).success == Successes(items)
    ensures Fold(items).success + Fold(items).failed == |items|
  {
    if |items| > 0 {
      FoldCounts(items[..|items| - 1]);
    }
  }

  /** A name is an error key exactly when some file of that name failed. */
  lemma {:induction false} FoldErrorKeys(items: seq<Item>)
    ensures forall k :: k in Fold(items).errors <==> exists i :: 0 <= i < |items| && FailedAs(items[i], k)
  {
    if |items| > 0 {
      var n := |items| - 1;
      var init := items[..n];
      FoldErrorKeys(init);
      forall k ensures k in Fold(items).errors <==> exists i :: 0 <= i < |items| && FailedAs(items[i], k) {
        if exists i :: 0 <= i < n && FailedAs(init[i], k) {
          var i :| 0 <= i < n && FailedAs(init[i], k);
          assert FailedAs(items[i], k);
        }
        if exists i :: 0 <= i < |items| && FailedAs(items[i], k) {
          var i :| 0 <= i < |items| && FailedAs(items[i], k);
          if i < n {
            assert FailedAs(init[i], k);
          }
        }
      }
    }
  }

  /** With one result per name, each failure's message is recorded under its name. */
  lemma {:induction false} FoldErrorValues(items: seq<Item>)
    requires NamesDetermineItems(items)
    ensures forall x :: x in items && !Succeeded(x.result) ==>
      x.name in Fold(items).errors && Fold(items).errors[x.name] == Message(x.result)
  {
    if |items| > 0 {
      var n := |items| - 1;
      var init := items[..n];
      assert NamesDetermineItems(init) by {
        forall x, y | x in init && y in init && x.name == y.name ensures x == y {
          assert x in items && y in items;
        }
      }
      FoldErrorValues(init);
      forall x | x in items && !Succeeded(x.result)
        ensures x.name in Fold(items).errors && Fold(items).errors[x.name] == Message(x.result)
      {
        if x != items[n] {
          assert x in init by {
            var i :| 0 <= i < |items| && items[i] == x;
            assert i < n && init[i] == x;
          }
          assert items[n] in items;
          assert x.name != items[n].name;
        }
      }
    }
  }

  /** `items[i]` is the last result that failed under `name`. */
  predicate LastFailureAt(items: seq<Item>, name: string, i: int)
  {
    0 <= i < |items| && FailedAs(items[i], name) &&
    forall j :: i < j < |items| ==> !FailedAs(items[j], name)
  }

  /** Each error entry holds the message of the last failure under its name: a later one overwrites an earlier. */
  lemma {:induction false} FoldErrorLast(items: seq<Item>)
    ensures forall k :: k in Fold(items).errors ==>
      exists i :: LastFailureAt(items, k, i) && Fold(items).errors[k] == Message(items[i].result)
  {
    if |items| > 0 {
      var n := |items| - 1;
      var init := items[..n];
      var it := items[n];
      FoldErrorLast(init);
      forall k | k in Fold(items).errors
        ensures exists i :: LastFailureAt(items, k, i) && Fold(items).errors[k] == Message(items[i].result)
      {
        if FailedAs(it, k) {
          assert LastFailureAt(items, k, n);
        } else {
          assert k in Fold(init).errors && Fold(items).errors[k] == Fold(init).errors[k];
          var i :| LastFailureAt(init, k, i) && Fold(init).errors[k] == Message(init[i].result);
          assert items[i] == init[i];
          assert forall j :: i < j < n ==> items[j] == init[j];
          assert LastFailureAt(items, k, i);
        }
      }
    }
  }

  /** There are never more error entries than failures, and as many when the names are distinct. */
  lemma {:induction false} FoldErrorsBound(items: seq<Item>)
    ensures |Fold(items).errors| <= Fold(items).failed
    ensures DistinctItemNames(items) ==> |Fold(items).errors| == Fold(items).failed
  {
    if |items| > 0 {
      var n := |items| - 1;
      var init := items[..n];
      FoldErrorsBound(init);
      var prev := Fold(init);
      var it := items[n];
      if !Succeeded(it.result) {
        var m := prev.errors[it.name := Message(it.result)];
        assert m.Keys == prev.errors.Keys + {it.name};
        if it.name in prev.errors {
          assert m.Keys == prev.errors.Keys;
        } else {
          assert |m.Keys| == |prev.errors.Keys| + 1;
        }
        if DistinctItemNames(items) {
          assert DistinctItemNames(init) by {
            forall i, j | 0 <= i < j < |init| ensures init[i].name != init[j].name {
              assert init[i] == items[i] && init[j] == items[j];
            }
          }
          FoldErrorKeys(init);
          forall i | 0 <= i < n ensures !FailedAs(init[i], it.name) {
            assert init[i] == items[i];
          }
          assert it.name !in prev.errors;
        }
      }
    }
  }

  /** Counting successes distributes over concatenation. */
  lemma {:induction false} SuccessesAppend(a: seq<Item>, b: seq<Item>)
    ensures Successes(a + b) == Successes(a) + Successes(b)
  {
    if |b| == 0 {
      assert a + b == a;
    } else {
      var b' := b[..|b| - 1];
      assert (a + b)[..|a + b| - 1] == a + b';
      SuccessesAppend(a, b');
    }
  }

  /** The number of successes depends only on which results were collected, not on their order. */
  lemma {:induction false} SuccessesPermutation(a: seq<Item>, b: seq<Item>)
    requires multiset(a) == multiset(b)
    ensures Successes(a) == Successes(b)
  {
    if |a| > 0 {
      var n := |a| - 1;
      var x := a[n];
      assert a == a[..n] + [x];
      assert x in multiset(b);
      var j :| 0 <= j < |b| && b[j] == x;
      var rest := b[..j] + b[j + 1..];
      assert b == b[..j] + [x] + b[j + 1..];
      assert multiset(a) == multiset(a[..n]) + multiset{x};
      assert multiset(b) == multiset(b[..j]) + multiset{x} + multiset(b[j + 1..]);
      assert multiset(rest) == multiset(b[..j]) + multiset(b[j + 1..]);
      assert multiset(a[..n]) == multiset(a) - multiset{x};
      assert multiset(rest) == multiset(b) - multiset{x};
      SuccessesPermutation(a[..n], rest);
      SuccessesAppend(a[..n], [x]);
      SuccessesAppend(b[..j] + [x], b[j + 1..]);
      SuccessesAppend(b[..j], [x]);
      SuccessesAppend(b[..j], b[j + 1..]);
    } else {
      assert |b| == |multiset(b)| == 0;
    }
  }

  /**
   * Collecting the same results in another order gives the same counters, and
   * the same error map when a name determines its result.
   */
  lemma FoldOrderIrrelevant(a: seq<Item>, b: seq<Item>)
    requires multiset(a) == multiset(b)
    ensures Fold(a).success == Fold(b).success && Fold(a).failed == Fold(b).failed
    ensures NamesDetermineItems(a) ==> Fold(a).errors == Fold(b).errors
  {
    FoldCounts(a);
    FoldCounts(b);
    SuccessesPermutation(a, b);
    assert |a| == |multiset(a)| == |multiset(b)| == |b|;
    if NamesDetermineItems(a) {
      SameElements(a, b);
      assert NamesDetermineItems(b);
      SameErrorKeys(a, b);
      SameErrorValues(a, b);
      assert Fold(a).errors == Fold(b).errors;
    }
  }

  lemma SameElements(a: seq<Item>, b: seq<Item>)
    requires multiset(a) == multiset(b)
    ensures forall x :: x in a <==> x in b
  {
    forall x ensures x in a <==> x in b {
      assert x in a <==> x in multiset(a);
      assert x in b <==> x in multiset(b);
    }
  }

  /** Collections of the same results have the same error keys. */
  lemma SameErrorKeys(a: seq<Item>, b: seq<Item>)
    requires forall x :: x in a <==> x in b
    ensures Fold(a).errors.Keys == Fold(b).errors.Keys
  {
    FoldErrorKeys(a);
    FoldErrorKeys(b);
    forall k ensures k in Fold(a).errors <==> k in Fold(b).errors {
      if k in Fold(a).errors {
        var i :| 0 <= i < |a| && FailedAs(a[i], k);
        assert a[i] in b;
        var j :| 0 <= j < |b| && b[j] == a[i];
        assert FailedAs(b[j], k);
      }
      if k in Fold(b).errors {
        var j :| 0 <= j < |b| && FailedAs(b[j], k);
        assert b[j] in a;
        var i :| 0 <= i < |a| && a[i] == b[j];
        assert FailedAs(a[i], k);
      }
    }
  }

  /** When a name determines its result, collections of the same results store the same messages. */
  lemma SameErrorValues(a: seq<Item>, b: seq<Item>)
    requires forall x :: x in a <==> x in b
    requires NamesDetermineItems(a) && NamesDetermineItems(b)
    ensures forall k :: k in Fold(a).errors && k in Fold(b).errors ==> Fold(a).errors[k] == Fold(b).errors[k]
  {
    FoldErrorKeys(a);
    FoldErrorValues(a);
    FoldErrorValues(b);
    forall k | k in Fold(a).errors && k in Fold(b).errors ensures Fold(a).errors[k] == Fold(b).errors[k] {
      var i :| 0 <= i < |a| && FailedAs(a[i], k);
      assert a[i] in a && a[i] in b;
    }
  }

  // ---------------------------------------------------------------------------
  // Lemmas about convert_batch's result

  /** One name per discovered file: two files with the same name are the same file. */
  predicate NameInjective(files: seq<string>)
  {
    forall i, j :: 0 <= i < |files| && 0 <= j < |files| && Name(files[i]) == Name(files[j]) ==> files[i] == files[j]
  }

  predicate DistinctNames(files: seq<string>)
  {
    forall i, j :: 0 <= i < j < |files| ==> Name(files[i]) != Name(files[j])
  }

  /** Mapping distributes over concatenation. */
  lemma MapSeqAppend<A, B>(a: seq<A>, b: seq<A>, g: A -> B)
    ensures MapSeq(a + b, g) == MapSeq(a, g) + MapSeq(b, g)
  {
    var l, r := MapSeq(a + b, g), MapSeq(a, g) + MapSeq(b, g);
    forall i | 0 <= i < |l| ensures l[i] == r[i] {
      if i < |a| {
        assert (a + b)[i] == a[i];
      } else {
        assert (a + b)[i] == b[i - |a|];
      }
    }
  }

  /** Mapping a permutation of a list gives a permutation of the mapped list. */
  lemma {:induction false} MapSeqPermutation<A, B>(c: seq<A>, d: seq<A>, g: A -> B)
    requires multiset(c) == multiset(d)
    ensures multiset(MapSeq(c, g)) == multiset(MapSeq(d, g))
  {
    if |c| > 0 {
      var n := |c| - 1;
      var x := c[n];
      MapSeqLast(c, g);
      assert x in multiset(d);
      var j :| 0 <= j < |d| && d[j] == x;
      var rest := d[..j] + d[j + 1..];
      MapSeqRemove(d, j, g);
      MapSeqPermutation(c[..n], rest, g);
    } else {
      assert |d| == |multiset(d)| == 0;
    }
  }

  /** The last element of a list and its image, taken off. */
  lemma MapSeqLast<A, B>(c: seq<A>, g: A -> B)
    requires |c| > 0
    ensures var n := |c| - 1;
      && multiset(c[..n]) == multiset(c) - multiset{c[n]}
      && multiset(MapSeq(c, g)) == multiset(MapSeq(c[..n], g)) + multiset{g(c[n])}
  {
    var n := |c| - 1;
    assert c == c[..n] + [c[n]];
    MapSeqSnoc(c, n, g);
    assert c[..n + 1] == c;
  }

  /** Taking one element out of a list takes its image out of the mapped list. */
  lemma MapSeqRemove<A, B>(d: seq<A>, j: nat, g: A -> B)
    requires j < |d|
    ensures var rest := d[..j] + d[j + 1..];
      && multiset(rest) == multiset(d) - multiset{d[j]}
      && multiset(MapSeq(d, g)) == multiset(MapSeq(rest, g)) + multiset{g(d[j])}
  {
    var lo, hi := d[..j], d[j + 1..];
    assert d == lo + [d[j]] + hi;
    MapSeqAppend(lo, hi, g);
    MapSeqAppend(lo, [d[j]], g);
    MapSeqAppend(lo + [d[j]], hi, g);
    var ml, mh, y := MapSeq(lo, g), MapSeq(hi, g), g(d[j]);
    assert MapSeq([d[j]], g) == [y];
    assert MapSeq(d, g) == ml + [y] + mh;
    assert MapSeq(lo + hi, g) == ml + mh;
    assert multiset(ml + [y] + mh) == multiset(ml) + multiset{y} + multiset(mh);
  }

  /** Converting the same files in another order collects the same results, in that order. */
  lemma ItemsPermutation(c: seq<string>, d: seq<string>, out: string, world: World)
    requires Named(c) && Named(d) && multiset(c) == multiset(d)
    ensures multiset(Items(c, out, world)) == multiset(Items(d, out, world))
  {
    MapSeqPermutation(c, d, Collector(out, world));
  }

  lemma SameNameSameFile(files: seq<string>, i: nat, j: nat)
    requires NameInjective(files) && i < |files| && j < |files| && Name(files[i]) == Name(files[j])
    ensures files[i] == files[j]
  {
  }

  /** With one name per file, a name determines the collected result. */
  lemma InjectiveNamesDetermineItems(files: seq<string>, out: string, world: World)
    requires Named(files) && NameInjective(files)
    ensures NamesDetermineItems(Items(files, out, world))
  {
    var items := Items(files, out, world);
    forall x, y | x in items && y in items && x.name == y.name ensures x == y {
      SameNameSameItem(files, out, world, x, y);
    }
  }

  lemma SameNameSameItem(files: seq<string>, out: string, world: World, x: Item, y: Item)
    requires Named(files) && NameInjective(files)
    requires x in Items(files, out, world) && y in Items(files, out, world) && x.name == y.name
    ensures x == y
  {
    var items := Items(files, out, world);
    var i :| 0 <= i < |items| && items[i] == x;
    var j :| 0 <= j < |items| && items[j] == y;
    SameNameSameFile(files, i, j);
  }

  /**
   * The parallel branch ends with the same counters as the sequential one
   * whatever the completion order, and with the same error map as well when
   * no two files share a name.
   */
  lemma BatchOrderIrrelevant(inputFolder: string, outputFolder: Option<string>,
                             discovered: seq<string>, completed: seq<string>, world: World)
    requires Named(discovered) && multiset(completed) == multiset(discovered)
    ensures var par := BatchResult(true, inputFolder, outputFolder, discovered, completed, world);
      var seqr := BatchResult(false, inputFolder, outputFolder, discovered, completed, world);
      && par.success == seqr.success && par.failed == seqr.failed
      && (NameInjective(discovered) ==> par == seqr)
  {
    if world.pathExists(inputFolder) && |discovered| > 1 {
      var out := OutputFolder(inputFolder, outputFolder);
      assert Named(completed) by {
        forall f | f in completed ensures Name(f) != "" { assert f in multiset(completed); }
      }
      ItemsPermutation(completed, discovered, out, world);
      var a, b := Items(discovered, out, world), Items(completed, out, world);
      FoldOrderIrrelevant(a, b);
      if NameInjective(discovered) {
        InjectiveNamesDetermineItems(discovered, out, world);
      }
    }
  }

  /**
   * With multi-processing off, or with a single file, the files are collected
   * in glob order, whatever order the workers would have finished in.
   */
  lemma SequentialBatchValues(multiProcessing: bool, inputFolder: string, outputFolder: Option<string>,
                              discovered: seq<string>, completed: seq<string>, world: World)
    requires Named(discovered) && multiset(completed) == multiset(discovered)
    requires world.pathExists(inputFolder) && |discovered| > 0
    requires !Parallel(multiProcessing, discovered)
    ensures BatchResult(multiProcessing, inputFolder, outputFolder, discovered, completed, world)
      == Fold(Items(discovered, OutputFolder(inputFolder, outputFolder), world))
  {
  }

  /** A name failed among the collected results exactly when a file of that name failed. */
  lemma FailedKeysOfFiles(files: seq<string>, out: string, world: World, k: string)
    requires Named(files)
    ensures var items := Items(files, out, world);
      (exists i :: 0 <= i < |items| && FailedAs(items[i], k))
        <==> (exists f :: f in files && FailedAs(ItemFor(out, world, f), k))
  {
    var items := Items(files, out, world);
    if exists i :: 0 <= i < |items| && FailedAs(items[i], k) {
      var i :| 0 <= i < |items| && FailedAs(items[i], k);
      assert files[i] in files && FailedAs(ItemFor(out, world, files[i]), k);
    }
    if exists f :: f in files && FailedAs(ItemFor(out, world, f), k) {
      var f :| f in files && FailedAs(ItemFor(out, world, f), k);
      var i :| 0 <= i < |files| && files[i] == f;
      assert FailedAs(items[i], k);
    }
  }

  /**
   * Every discovered file is counted once: success and failed add up to the
   * number of files found (none when the folder is missing or nothing
   * matches), and there are no more error entries than failures.
   */
  lemma BatchCounts(multiProcessing: bool, inputFolder: string, outputFolder: Option<string>,
                    discovered: seq<string>, completed: seq<string>, world: World)
    requires Named(discovered) && multiset(completed) == multiset(discovered)
    ensures var rep := BatchResult(multiProcessing, inputFolder, outputFolder, discovered, completed, world);
      && (!world.pathExists(inputFolder) || |discovered| == 0 ==> rep == EmptyReport)
      && rep.success + rep.failed == (if world.pathExists(inputFolder) then |discovered| else 0)
      && |rep.errors| <= rep.failed
  {
    if world.pathExists(inputFolder) && |discovered| > 0 {
      var out := OutputFolder(inputFolder, outputFolder);
      assert Named(completed) by {
        forall f | f in completed ensures Name(f) != "" { assert f in multiset(completed); }
      }
      var files := if Parallel(multiProcessing, discovered) then completed else discovered;
      var items := Items(files, out, world);
      FoldCounts(items);
      FoldErrorsBound(items);
      assert |files| == |multiset(files)| == |discovered|;
    }
  }

  /** Some file among `files` failed under the name `k`. */
  predicate FailingName(files: seq<string>, out: string, world: World, k: string)
    requires Named(files)
  {
    exists f :: f in files && FailedAs(ItemFor(out, world, f), k)
  }

  /**
   * The error keys are exactly the names of the discovered files whose
   * conversion failed; a successful file adds no entry of its own.
   */
  lemma BatchErrorKeys(multiProcessing: bool, inputFolder: string, outputFolder: Option<string>,
                       discovered: seq<string>, completed: seq<string>, world: World)
    requires Named(discovered) && multiset(completed) == multiset(discovered)
    ensures var rep := BatchResult(multiProcessing, inputFolder, outputFolder, discovered, completed, world);
      forall k :: k in rep.errors <==>
        (world.pathExists(inputFolder) && FailingName(discovered, OutputFolder(inputFolder, outputFolder), world, k))
  {
    var rep := BatchResult(multiProcessing, inputFolder, outputFolder, discovered, completed, world);
    var out := OutputFolder(inputFolder, outputFolder);
    if world.pathExists(inputFolder) && |discovered| > 0 {
      assert Named(completed) by {
        forall f | f in completed ensures Name(f) != "" { assert f in multiset(completed); }
      }
      var files := if Parallel(multiProcessing, discovered) then completed else discovered;
      assert rep == Fold(Items(files, out, world));
      ErrorKeysOfFiles(files, out, world);
      SameMembers(files, discovered, out, world);
    }
  }

  /** The error keys of a fold over `files` are the names of the files that failed. */
  lemma ErrorKeysOfFiles(files: seq<string>, out: string, world: World)
    requires Named(files)
    ensures forall k :: k in Fold(Items(files, out, world)).errors <==> FailingName(files, out, world, k)
  {
    FoldErrorKeys(Items(files, out, world));
    forall k ensures k in Fold(Items(files, out, world)).errors <==> FailingName(files, out, world, k) {
      FailedKeysOfFiles(files, out, world, k);
    }
  }

  /** Two orderings of the same files have the same failing names. */
  lemma SameMembers(files: seq<string>, discovered: seq<string>, out: string, world: World)
    requires Named(files) && Named(discovered) && multiset(files) == multiset(discovered)
    ensures forall k :: FailingName(files, out, world, k) <==> FailingName(discovered, out, world, k)
  {
    assert forall f :: f in files <==> f in discovered by {
      forall f ensures f in files <==> f in discovered {
        assert f in files <==> f in multiset(files);
        assert f in discovered <==> f in multiset(discovered);
      }
    }
  }

  lemma DistinctNamesInjective(files: seq<string>)
    requires DistinctNames(files)
    ensures NameInjective(files)
  {
    forall i, j | 0 <= i < |files| && 0 <= j < |files| && i != j
      ensures Name(files[i]) != Name(files[j])
    {
      if j < i {
        assert Name(files[j]) != Name(files[i]);
      }
    }
  }

  /**
   * When no two discovered files share a name there is exactly one error
   * entry per failure, holding that file's message.
   */
  lemma BatchDistinctNames(multiProcessing: bool, inputFolder: string, outputFolder: Option<string>,
                           discovered: seq<string>, completed: seq<string>, world: World)
    requires Named(discovered) && multiset(completed) == multiset(discovered)
    requires DistinctNames(discovered)
    ensures var rep := BatchResult(multiProcessing, inputFolder, outputFolder, discovered, completed, world);
      var out := OutputFolder(inputFolder, outputFolder);
      && |rep.errors| == rep.failed
      && (world.pathExists(inputFolder) ==>
            forall f :: f in discovered && !Succeeded(ItemFor(out, world, f).result) ==>
              Name(f) in rep.errors && rep.errors[Name(f)] == Message(ItemFor(out, world, f).result))
  {
    DistinctNamesInjective(discovered);
    BatchOrderIrrelevant(inputFolder, outputFolder, discovered, completed, world);
    if world.pathExists(inputFolder) && |discovered| > 0 {
      var out := OutputFolder(inputFolder, outputFolder);
      SequentialBatchValues(false, inputFolder, outputFolder, discovered, completed, world);
      DistinctFold(discovered, out, world);
    }
  }

  /** The fold over files with distinct names has one error entry per failure, holding its message. */
  lemma DistinctFold(files: seq<string>, out: string, world: World)
    requires Named(files) && DistinctNames(files)
    ensures var rep := Fold(Items(files, out, world));
      && |rep.errors| == rep.failed
      && forall f :: f in files && !Succeeded(ItemFor(out, world, f).result) ==>
           Name(f) in rep.errors && rep.errors[Name(f)] == Message(ItemFor(out, world, f).result)
  {
    DistinctNamesInjective(files);
    var items := Items(files, out, world);
    assert DistinctItemNames(items);
    FoldErrorsBound(items);
    InjectiveNamesDetermineItems(files, out, world);
    FoldErrorValues(items);
    forall f | f in files && !Succeeded(ItemFor(out, world, f).result)
      ensures ItemFor(out, world, f) in items
    {
      var i :| 0 <= i < |files| && files[i] == f;
      assert items[i] == ItemFor(out, world, f);
    }
  }
}
