// src/evf_profile.c: which configuration files a profile loads for a device. Lines are
// rules about the device or names of files; the files after a run of rules are loaded
// when one of those rules matched.
module Profile {

  // A rule line carries what check_for_matching_rule returned for it: 1 for a match, 0
  // for none, a negative number for an error.
  datatype Line = Rule(result: int) | File(name: string)

  datatype Loading<F> = Failed | Loaded(filters: seq<F>)

  // ---- The machine ----

  // evf_load_profile, for a given way of loading one file.
  method LoadProfile<F>(lines: seq<Line>, load: string -> Loading<F>) returns (r: Loading<F>)
    ensures r == GroupFilters(lines, |lines|, load)
  {
    LoadsSelectedGroups(lines, |lines|, load);
    assert lines[..|lines|] == lines;
    var hasMatched := 0;
    var filters: seq<F> := [];
    var i := 0;
    while i < |lines|
      invariant 0 <= i <= |lines|
      invariant hasMatched == Matched(lines[..i])
      invariant Result(lines[..i], load) == Loaded(filters)
    {
      assert lines[..i + 1][..i] == lines[..i];
      match lines[i] {
        case File(name) =>
          if hasMatched != 0 {
            var tmp := load(name);
            if tmp.Failed? {
              FailureStays(lines, i + 1, load);
              return Failed;
            }
            filters := filters + tmp.filters;
            hasMatched := -1;
          }
        case Rule(val) =>
          if hasMatched == -1 {
            hasMatched := 0;
          }
          if val == 1 {
            hasMatched := 1;
          }
      }
      i := i + 1;
    }
    assert lines[..i] == lines;
    return Loaded(filters);
  }

  // has_matched after these lines.
  function Matched(lines: seq<Line>): int
    decreases |lines|
  {
    if lines == [] then 0
    else
      var before := Matched(lines[..|lines| - 1]);
      match lines[|lines| - 1]
      case File(_) => if before != 0 then -1 else 0
      case Rule(val) => if val == 1 then 1 else if before == -1 then 0 else before
  }

  // The files loaded so far, one after the other; the first failure ends it.
  function Result<F>(lines: seq<Line>, load: string -> Loading<F>): Loading<F>
    decreases |lines|
  {
    if lines == [] then Loaded([])
    else
      var init, last := lines[..|lines| - 1], lines[|lines| - 1];
      match Result(init, load)
      case Failed => Failed
      case Loaded(fs) =>
        if last.File? && Matched(init) != 0 then
          match load(last.name)
          case Failed => Failed
          case Loaded(more) => Loaded(fs + more)
        else Loaded(fs)
  }

  lemma {:induction false} FailureStays<F>(lines: seq<Line>, n: nat, load: string -> Loading<F>)
    requires n <= |lines| && Result(lines[..n], load).Failed?
    ensures Result(lines, load).Failed?
    decreases |lines| - n
  {
    if n < |lines| {
      assert lines[..n + 1][..n] == lines[..n];
      FailureStays(lines, n + 1, load);
    } else {
      assert lines[..n] == lines;
    }
  }

  // ---- Groups ----

  predicate AllRules(lines: seq<Line>, from: nat, to: nat) {
    from <= to <= |lines| && forall k :: from <= k < to ==> lines[k].Rule?
  }

  predicate AllFiles(lines: seq<Line>, from: nat, to: nat) {
    from <= to <= |lines| && forall k :: from <= k < to ==> lines[k].File?
  }

  // Line i belongs to a group that is selected: going back over files and then over
  // rules there is a rule that matched, with nothing but rules after it and then
  // nothing but files up to line i.
  ghost predicate Selected(lines: seq<Line>, i: nat)
    requires i <= |lines|
  {
    exists r, f :: 0 <= r < f <= i && lines[r] == Rule(1) && AllRules(lines, r, f) && AllFiles(lines, f, i)
  }

  // What has_matched means: 1 when the current rules have matched and no file has come,
  // -1 while loading the files of a selected group, 0 otherwise.
  lemma {:induction false} MatchedMeans(lines: seq<Line>, i: nat)
    requires i <= |lines|
    ensures Matched(lines[..i]) in {-1, 0, 1}
    ensures Matched(lines[..i]) != 0 <==> Selected(lines, i)
    ensures Matched(lines[..i]) == -1 ==> i > 0 && lines[i - 1].File?
    ensures Matched(lines[..i]) == 1 ==> i > 0 && lines[i - 1].Rule?
    decreases i
  {
    if i > 0 {
      var n := i - 1;
      assert lines[..i][..n] == lines[..n];
      MatchedMeans(lines, n);
      match lines[n] {
        case File(_) => FileKeepsSelection(lines, n);
        case Rule(val) => RuleSelects(lines, n);
      }
    }
  }

  lemma FileKeepsSelection(lines: seq<Line>, n: nat)
    requires n < |lines| && lines[n].File?
    ensures Selected(lines, n + 1) <==> Selected(lines, n)
  {
    if Selected(lines, n) {
      var r, f :| 0 <= r < f <= n && lines[r] == Rule(1) && AllRules(lines, r, f) && AllFiles(lines, f, n);
      assert AllFiles(lines, f, n + 1);
    }
    if Selected(lines, n + 1) {
      var r, f :| 0 <= r < f <= n + 1 && lines[r] == Rule(1) && AllRules(lines, r, f) && AllFiles(lines, f, n + 1);
      assert f <= n && AllFiles(lines, f, n);
    }
  }

  // A rule selects if it matches itself, or if it goes on a run of rules that did.
  lemma RuleSelects(lines: seq<Line>, n: nat)
    requires n < |lines| && lines[n].Rule?
    ensures Selected(lines, n + 1)
       <==> lines[n] == Rule(1) || (Selected(lines, n) && n > 0 && lines[n - 1].Rule?)
  {
    if lines[n] == Rule(1) {
      assert AllRules(lines, n, n + 1) && AllFiles(lines, n + 1, n + 1);
    }
    if Selected(lines, n) && n > 0 && lines[n - 1].Rule? {
      var r, f :| 0 <= r < f <= n && lines[r] == Rule(1) && AllRules(lines, r, f) && AllFiles(lines, f, n);
      assert f == n && AllRules(lines, r, n + 1) && AllFiles(lines, n + 1, n + 1);
    }
    if Selected(lines, n + 1) {
      var r, f :| 0 <= r < f <= n + 1 && lines[r] == Rule(1) && AllRules(lines, r, f) && AllFiles(lines, f, n + 1);
      if r < n {
        assert AllRules(lines, r, n) && AllFiles(lines, n, n);
      }
    }
  }

  // The filters of the files of selected groups, in order of their lines.
  ghost function GroupFilters<F>(lines: seq<Line>, n: nat, load: string -> Loading<F>): Loading<F>
    requires n <= |lines|
  {
    if n == 0 then Loaded([])
    else
      match GroupFilters(lines, n - 1, load)
      case Failed => Failed
      case Loaded(fs) =>
        if lines[n - 1].File? && Selected(lines, n - 1) then
          match load(lines[n - 1].name)
          case Failed => Failed
          case Loaded(more) => Loaded(fs + more)
        else Loaded(fs)
  }

  // The machine loads exactly the files whose group is selected.
  lemma {:induction false} LoadsSelectedGroups<F>(lines: seq<Line>, n: nat, load: string -> Loading<F>)
    requires n <= |lines|
    ensures Result(lines[..n], load) == GroupFilters(lines, n, load)
    decreases n
  {
    if n > 0 {
      assert lines[..n][..n - 1] == lines[..n - 1];
      LoadsSelectedGroups(lines, n - 1, load);
      MatchedMeans(lines, n - 1);
    }
  }

  // Line i names a file of a selected group.
  ghost predicate Loads(lines: seq<Line>, i: nat)
    requires i < |lines|
  {
    lines[i].File? && Selected(lines, i)
  }

  // How many filters the files of selected groups have, all together.
  ghost function Count<F>(lines: seq<Line>, n: nat, load: string -> Loading<F>): nat
    requires n <= |lines|
  {
    if n == 0 then 0
    else
      Count(lines, n - 1, load)
      + if Loads(lines, n - 1) && load(lines[n - 1].name).Loaded? then |load(lines[n - 1].name).filters| else 0
  }

  // Loading fails exactly when a file of a selected group does; otherwise each of these
  // files' filters follow those of the lines before it, and there are no others.
  lemma {:induction false} GroupsInOrder<F>(lines: seq<Line>, n: nat, load: string -> Loading<F>)
    requires n <= |lines|
    ensures var r := GroupFilters(lines, n, load);
            && (r.Failed? <==> exists i :: 0 <= i < n && Loads(lines, i) && load(lines[i].name).Failed?)
            && (r.Loaded? ==> |r.filters| == Count(lines, n, load))
            && (r.Loaded? ==> forall i :: 0 <= i < n && Loads(lines, i) ==>
                  var before, more := GroupFilters(lines, i, load), load(lines[i].name);
                  before.Loaded? && more.Loaded? && before.filters + more.filters <= r.filters)
    decreases n
  {
    hide Loads;
    if n > 0 {
      GroupsInOrder(lines, n - 1, load);
      LoadsMeans(lines, n - 1);
    }
  }

  lemma LoadsMeans(lines: seq<Line>, i: nat)
    requires i < |lines|
    ensures Loads(lines, i) <==> lines[i].File? && Selected(lines, i)
  {
  }
}
