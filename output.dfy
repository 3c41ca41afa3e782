/**
 * The dataset-writing rules of the driver: the output directory layout, the
 * search for an unused output directory name, and the per-frame merge of
 * located detections into one label line per robot label.
 */
module Output {
  import opened Common
  import opened Cluster
  import opened Search

  // ------------------------------------------------------ decimal numbers

  function DigitChar(d: nat): char
    requires d < 10
  {
    "0123456789"[d]
  }

  function DigitValue(c: char): nat {
    if '0' <= c <= '9' then (c as int - '0' as int) as nat else 0
  }

  /** The decimal form of `n` written by `format!("{}")`. */
  function Decimal(n: nat): (s: string)
    ensures |s| > 0 && forall i :: 0 <= i < |s| ==> '0' <= s[i] <= '9'
    ensures |s| > 1 ==> s[0] != '0'
    decreases n
  {
    if n < 10 then [DigitChar(n)] else Decimal(n / 10) + [DigitChar(n % 10)]
  }

  /** The value of a string of decimal digits. */
  function ParseDecimal(s: string): nat
    decreases |s|
  {
    if |s| == 0 then 0 else ParseDecimal(s[..|s| - 1]) * 10 + DigitValue(s[|s| - 1])
  }

  /** Reading back the decimal form of `n` gives `n`. */
  lemma {:induction false} DecimalRoundTrip(n: nat)
    ensures ParseDecimal(Decimal(n)) == n
    decreases n
  {
    if n >= 10 {
      DecimalRoundTrip(n / 10);
      var s := Decimal(n);
      assert s[..|s| - 1] == Decimal(n / 10);
    } else {
      assert Decimal(n)[..0] == [];
    }
  }

  /** Different numbers have different decimal forms. */
  lemma DecimalInjective(m: nat, n: nat)
    requires Decimal(m) == Decimal(n)
    ensures m == n
  {
    DecimalRoundTrip(m);
    DecimalRoundTrip(n);
  }

  // -------------------------------------------------------- output layout

  /** What `PathBuf::join` puts before a relative component: nothing for an empty root, else a separator when missing. */
  function JoinPrefix(root: string): string {
    if |root| == 0 then "" else if root[|root| - 1] == '/' then root else root + "/"
  }

  /** `PathBuf::from(root).join(rel)` for a relative `rel`. */
  function Join(root: string, rel: string): (p: string)
    ensures |JoinPrefix(root)| <= |p| && p[|JoinPrefix(root)|..] == rel
  {
    JoinPrefix(root) + rel
  }

  /** The relative image directory of camera `i`. */
  function ImageDir(i: nat): string {
    "images/images_" + Decimal(i)
  }

  /** The directories `create_output_dirs` creates, in the order it creates them. */
  function OutputDirs(root: string, imageNum: nat): (dirs: seq<string>)
    ensures |dirs| == imageNum + 3
    ensures forall i :: 0 <= i < imageNum ==> dirs[i] == Join(root, ImageDir(i))
    ensures dirs[imageNum] == Join(root, "points")
    ensures dirs[imageNum + 1] == Join(root, "labels")
    ensures dirs[imageNum + 2] == Join(root, "calibs")
  {
    seq(imageNum, i requires 0 <= i < imageNum => Join(root, ImageDir(i)))
      + [Join(root, "points"), Join(root, "labels"), Join(root, "calibs")]
  }

  /** The layout never names one directory twice. */
  lemma OutputDirsDistinct(root: string, imageNum: nat)
    ensures forall i, j :: 0 <= i < j < imageNum + 3 ==> OutputDirs(root, imageNum)[i] != OutputDirs(root, imageNum)[j]
  {
    var dirs := OutputDirs(root, imageNum);
    var n := |JoinPrefix(root)|;
    forall i, j | 0 <= i < j < imageNum + 3
      ensures dirs[i] != dirs[j]
    {
      var a, b := dirs[i][n..], dirs[j][n..];
      if j < imageNum {
        if ImageDir(i) == ImageDir(j) {
          assert Decimal(i) == ImageDir(i)[14..];
          assert Decimal(j) == ImageDir(j)[14..];
          DecimalInjective(i, j);
        }
        assert a != b;
      } else if i < imageNum {
        assert a[0] == 'i';
        assert b[0] != 'i';
      } else {
        assert a[0] != b[0];
      }
    }
  }

  /**
   * `create_output_dirs`: create the layout in order, stopping at the first
   * directory the file system refuses (`fails`); the refused one is returned.
   */
  method CreateOutputDirs(root: string, imageNum: nat, fails: set<string>)
    returns (created: seq<string>, failed: Option<string>)
    ensures var dirs := OutputDirs(root, imageNum);
            |created| <= |dirs| && created == dirs[..|created|]
    ensures forall d :: d in created ==> d !in fails
    ensures failed.None? <==> created == OutputDirs(root, imageNum)
    ensures failed.Some? ==> var dirs := OutputDirs(root, imageNum);
              |created| < |dirs| && failed.value == dirs[|created|] && failed.value in fails
  {
    var dirs := OutputDirs(root, imageNum);
    created := [];
    for i := 0 to |dirs|
      invariant created == dirs[..i]
      invariant forall d :: d in created ==> d !in fails
    {
      if dirs[i] in fails {
        return created, Some(dirs[i]);
      }
      created := created + [dirs[i]];
    }
    assert dirs[..|dirs|] == dirs;
    failed := None;
  }

  // ----------------------------------------------------- output directory

  /** Why no output directory name was settled on. */
  datatype NameError =
    | QueryFailed(path: string)   // the existence query of the root failed: an error is returned
    | Panicked(path: string)      // the existence query of a numbered name failed: `unwrap` panics

  /** The `n`-th numbered name tried for `root`. */
  function Candidate(root: string, n: nat): string {
    root + Decimal(n)
  }

  /** Every candidate below `n` exists and was queried without error. */
  ghost predicate AllTaken(root: string, existing: set<string>, queryFails: set<string>, n: nat) {
    forall j :: 0 <= j < n ==> Candidate(root, j) in existing && Candidate(root, j) !in queryFails
  }

  /**
   * The numbered search settles at `n`: every earlier candidate exists and
   * was queried without error, and candidate `n` either fails its query
   * (a panic) or does not exist (the answer).
   */
  ghost predicate SettlesAt(root: string, existing: set<string>, queryFails: set<string>, n: nat,
                            r: Result<string, NameError>)
  {
    && AllTaken(root, existing, queryFails, n)
    && if Candidate(root, n) in queryFails then r == Failure(Panicked(Candidate(root, n)))
       else Candidate(root, n) !in existing && r == Success(Candidate(root, n))
  }

  /** Different numbers give different candidates. */
  lemma CandidateInjective(root: string, m: nat, n: nat)
    requires Candidate(root, m) == Candidate(root, n)
    ensures m == n
  {
    assert Decimal(m) == Candidate(root, m)[|root|..];
    assert Decimal(n) == Candidate(root, n)[|root|..];
    DecimalInjective(m, n);
  }

  /** The names in `tried` are candidates of numbers below `n`. */
  ghost predicate TriedBelow(root: string, tried: set<string>, n: nat) {
    forall s :: s in tried ==> |root| <= |s| && ParseDecimal(s[|root|..]) < n
  }

  /**
   * `set_output_dir_name`: the root itself when it does not exist, else the
   * root followed by the smallest number whose name does not exist. The
   * file system is the finite set of `existing` paths and the set of paths
   * whose existence query fails.
   */
  method SetOutputDirName(root: string, existing: set<string>, queryFails: set<string>)
    returns (r: Result<string, NameError>)
    ensures root in queryFails ==> r == Failure(QueryFailed(root))
    ensures root !in queryFails && root !in existing ==> r == Success(root)
    ensures root !in queryFails && root in existing ==> exists n: nat :: SettlesAt(root, existing, queryFails, n, r)
  {
    if root in queryFails {
      return Failure(QueryFailed(root));
    }
    if root !in existing {
      return Success(root);
    }
    var counter: nat := 0;
    ghost var tried: set<string> := {};
    while true
      invariant tried <= existing && |tried| == counter
      invariant AllTaken(root, existing, queryFails, counter)
      invariant TriedBelow(root, tried, counter)
      decreases |existing| - counter
    {
      var renamed := Candidate(root, counter);
      if renamed in queryFails {
        r := Failure(Panicked(renamed));
        assert SettlesAt(root, existing, queryFails, counter, r);
        return;
      }
      if renamed !in existing {
        r := Success(renamed);
        assert SettlesAt(root, existing, queryFails, counter, r);
        return;
      }
      TriedStep(root, existing, queryFails, tried, counter);
      tried := tried + {renamed};
      counter := counter + 1;
    }
  }

  /** The next candidate has not been tried, and trying it keeps the tried names below the new counter. */
  lemma CandidateFresh(root: string, tried: set<string>, counter: nat)
    requires TriedBelow(root, tried, counter)
    ensures Candidate(root, counter) !in tried
    ensures TriedBelow(root, tried + {Candidate(root, counter)}, counter + 1)
  {
    DecimalRoundTrip(counter);
    assert Candidate(root, counter)[|root|..] == Decimal(counter);
  }

  /**
   * A candidate that exists and was queried without error has not been
   * tried before, so trying it adds one name, and the count of tried names
   * stays within the existing ones.
   */
  lemma TriedStep(root: string, existing: set<string>, queryFails: set<string>, tried: set<string>, counter: nat)
    requires tried <= existing && |tried| == counter
    requires AllTaken(root, existing, queryFails, counter) && TriedBelow(root, tried, counter)
    requires Candidate(root, counter) in existing && Candidate(root, counter) !in queryFails
    ensures var t := tried + {Candidate(root, counter)};
            t <= existing && |t| == counter + 1 && counter + 1 <= |existing|
    ensures AllTaken(root, existing, queryFails, counter + 1)
    ensures TriedBelow(root, tried + {Candidate(root, counter)}, counter + 1)
  {
    CandidateFresh(root, tried, counter);
    SubsetCard(tried + {Candidate(root, counter)}, existing);
  }

  /** A subset is no larger than its superset. */
  lemma SubsetCard<T>(a: set<T>, b: set<T>)
    requires a <= b
    ensures |a| <= |b|
  {
    assert b == a + (b - a);
  }

  // ---------------------------------------------------------- label merge

  /** A label entry: the detection's label and where it was located. */
  type Entry<L> = (L, RobotLocation)

  /** The entries of one sensor: its detections zipped with their locations, kept where located. */
  function SensorEntries<L>(locs: seq<Option<RobotLocation>>, dets: seq<Detection<L>>, n: nat): seq<Entry<L>>
    requires n <= |locs| && n <= |dets|
    decreases n
  {
    if n == 0 then []
    else
      var init := SensorEntries(locs, dets, n - 1);
      if locs[n - 1].Some? then init + [(dets[n - 1].robotLabel, locs[n - 1].value)] else init
  }

  /** All of a sensor's entries, the longer list truncated to the shorter. */
  function PairedEntries<L>(locs: seq<Option<RobotLocation>>, dets: seq<Detection<L>>): seq<Entry<L>> {
    SensorEntries(locs, dets, Shorter(|locs|, |dets|))
  }

  /** The entries of sensors `i < n`, for sensors whose locate and detect results are both present. */
  function FrameEntriesUpTo<L>(locate: seq<Option<seq<Option<RobotLocation>>>>, detect: seq<Option<seq<Detection<L>>>>, n: nat)
    : seq<Entry<L>>
    requires n <= |locate| && n <= |detect|
    decreases n
  {
    if n == 0 then []
    else
      var init := FrameEntriesUpTo(locate, detect, n - 1);
      if locate[n - 1].Some? && detect[n - 1].Some? then init + PairedEntries(locate[n - 1].value, detect[n - 1].value)
      else init
  }

  /** Every entry of a frame, sensor by sensor and detection by detection. */
  function FrameEntries<L>(locate: seq<Option<seq<Option<RobotLocation>>>>, detect: seq<Option<seq<Detection<L>>>>)
    : seq<Entry<L>>
  {
    FrameEntriesUpTo(locate, detect, Shorter(|locate|, |detect|))
  }

  /** An entry comes from sensor `i`, detection `j`: both results present and detection `j` located. */
  ghost predicate Recorded<L>(locate: seq<Option<seq<Option<RobotLocation>>>>, detect: seq<Option<seq<Detection<L>>>>,
                              e: Entry<L>, i: int, j: int)
  {
    && 0 <= i < |locate| && 0 <= i < |detect| && locate[i].Some? && detect[i].Some?
    && 0 <= j < |locate[i].value| && 0 <= j < |detect[i].value|
    && locate[i].value[j] == Some(e.1) && detect[i].value[j].robotLabel == e.0
  }

  /** An entry of a sensor is a located detection among its first `n`. */
  lemma {:induction false} SensorEntriesMembers<L>(locs: seq<Option<RobotLocation>>, dets: seq<Detection<L>>, n: nat, e: Entry<L>)
    requires n <= |locs| && n <= |dets|
    ensures e in SensorEntries(locs, dets, n) <==>
              exists j :: 0 <= j < n && locs[j] == Some(e.1) && dets[j].robotLabel == e.0
    decreases n
  {
    if n > 0 {
      SensorEntriesMembers(locs, dets, n - 1, e);
    }
  }

  lemma {:induction false} FrameEntriesUpToMembers<L>(locate: seq<Option<seq<Option<RobotLocation>>>>,
                                                      detect: seq<Option<seq<Detection<L>>>>, n: nat)
    requires n <= |locate| && n <= |detect|
    ensures forall e :: e in FrameEntriesUpTo(locate, detect, n) <==>
              exists i, j :: 0 <= i < n && Recorded(locate, detect, e, i, j)
    decreases n
  {
    if n > 0 {
      FrameEntriesUpToMembers(locate, detect, n - 1);
      var i := n - 1;
      if locate[i].Some? && detect[i].Some? {
        var locs, dets := locate[i].value, detect[i].value;
        forall e | e in PairedEntries(locs, dets)
          ensures exists j :: Recorded(locate, detect, e, i, j)
        {
          SensorEntriesMembers(locs, dets, Shorter(|locs|, |dets|), e);
          var j :| 0 <= j < Shorter(|locs|, |dets|) && locs[j] == Some(e.1) && dets[j].robotLabel == e.0;
          assert Recorded(locate, detect, e, i, j);
        }
        forall e, j | Recorded(locate, detect, e, i, j)
          ensures e in PairedEntries(locs, dets)
        {
          SensorEntriesMembers(locs, dets, Shorter(|locs|, |dets|), e);
          assert 0 <= j < Shorter(|locs|, |dets|) && locs[j] == Some(e.1) && dets[j].robotLabel == e.0;
        }
      }
    }
  }

  /**
   * An entry is recorded exactly when some sensor has both a locate and a
   * detect result and some detection of it was located, pairing by position.
   */
  lemma FrameEntriesMembers<L>(locate: seq<Option<seq<Option<RobotLocation>>>>, detect: seq<Option<seq<Detection<L>>>>)
    ensures forall e :: e in FrameEntries(locate, detect) <==> exists i, j :: Recorded(locate, detect, e, i, j)
  {
    FrameEntriesUpToMembers(locate, detect, Shorter(|locate|, |detect|));
  }

  /** The map after inserting `entries` in order. */
  function LastWins<L>(entries: seq<Entry<L>>): map<L, RobotLocation>
    decreases |entries|
  {
    if |entries| == 0 then map[]
    else LastWins(entries[..|entries| - 1])[entries[|entries| - 1].0 := entries[|entries| - 1].1]
  }

  /**
   * The keys are the labels of the entries, and each label holds the location
   * of its last entry.
   */
  lemma {:induction false} LastWinsSpec<L>(entries: seq<Entry<L>>, l: L)
    ensures l in LastWins(entries) <==> exists i :: 0 <= i < |entries| && entries[i].0 == l
    ensures forall i :: 0 <= i < |entries| && (forall j :: i < j < |entries| ==> entries[j].0 != entries[i].0) ==>
              entries[i].0 in LastWins(entries) && LastWins(entries)[entries[i].0] == entries[i].1
    decreases |entries|
  {
    if |entries| > 0 {
      var init := entries[..|entries| - 1];
      LastWinsSpec(init, l);
      assert forall i :: 0 <= i < |init| ==> init[i] == entries[i];
    }
  }

  lemma LastWinsAppend<L>(entries: seq<Entry<L>>, more: seq<Entry<L>>, e: Entry<L>)
    ensures LastWins(entries + (more + [e])) == LastWins(entries + more)[e.0 := e.1]
  {
    assert entries + (more + [e]) == (entries + more) + [e];
    assert ((entries + more) + [e])[..|entries + more|] == entries + more;
  }

  /**
   * The merged map has a location for a label exactly when some sensor
   * recorded a located detection with that label, and the location it holds
   * is the one recorded last.
   */
  lemma MergedLabels<L>(locate: seq<Option<seq<Option<RobotLocation>>>>, detect: seq<Option<seq<Detection<L>>>>)
    ensures var m := LastWins(FrameEntries(locate, detect));
            forall l :: l in m <==> exists loc, i, j :: Recorded(locate, detect, (l, loc), i, j)
    ensures var es := FrameEntries(locate, detect);
            forall k :: 0 <= k < |es| && (forall k' :: k < k' < |es| ==> es[k'].0 != es[k].0) ==>
              es[k].0 in LastWins(es) && LastWins(es)[es[k].0] == es[k].1
  {
    var es := FrameEntries(locate, detect);
    FrameEntriesMembers(locate, detect);
    forall l | l in LastWins(es)
      ensures exists loc, i, j :: Recorded(locate, detect, (l, loc), i, j)
    {
      LastWinsSpec(es, l);
      var k :| 0 <= k < |es| && es[k].0 == l;
      assert es[k] in es;
      assert es[k] == (l, es[k].1);
    }
    forall l, loc, i, j | Recorded(locate, detect, (l, loc), i, j)
      ensures l in LastWins(es)
    {
      LastWinsSpec(es, l);
      assert (l, loc) in es;
      var k :| 0 <= k < |es| && es[k] == (l, loc);
    }
    if |es| > 0 {
      LastWinsSpec(es, es[0].0);
    }
  }

  /**
   * The `results_map` of a frame: every sensor's locate results zipped with
   * its detect results, inserting each located detection under its label.
   */
  method MergeResults<L(==)>(locate: seq<Option<seq<Option<RobotLocation>>>>, detect: seq<Option<seq<Detection<L>>>>)
    returns (resultsMap: map<L, RobotLocation>)
    ensures resultsMap == LastWins(FrameEntries(locate, detect))
  {
    resultsMap := map[];
    for i := 0 to Shorter(|locate|, |detect|)
      invariant resultsMap == LastWins(FrameEntriesUpTo(locate, detect, i))
    {
      if locate[i].Some? && detect[i].Some? {
        var locs, dets := locate[i].value, detect[i].value;
        ghost var before := FrameEntriesUpTo(locate, detect, i);
        assert before + SensorEntries(locs, dets, 0) == before;
        for j := 0 to Shorter(|locs|, |dets|)
          invariant resultsMap == LastWins(before + SensorEntries(locs, dets, j))
        {
          if locs[j].Some? {
            LastWinsAppend(before, SensorEntries(locs, dets, j), (dets[j].robotLabel, locs[j].value));
            resultsMap := resultsMap[dets[j].robotLabel := locs[j].value];
          }
        }
      }
    }
  }

  /**
   * One line of a label file, as its fields are written: centre x, y, z,
   * depth, width, height, a zero yaw, and the label's abbreviation.
   */
  datatype LabelLine = LabelLine(x: real, y: real, z: real, depth: real, width: real, height: real, yaw: real, name: string)

  function LineOf<L>(l: L, loc: RobotLocation, abbr: L -> string): (line: LabelLine)
    ensures line.x == loc.center.x && line.y == loc.center.y && line.z == loc.center.z
    ensures line.depth == loc.depth && line.width == loc.width && line.height == loc.height
    ensures line.yaw == 0.0 && line.name == abbr(l)
  {
    LabelLine(loc.center.x, loc.center.y, loc.center.z, loc.depth, loc.width, loc.height, 0.0, abbr(l))
  }

  /** The labels of `order` are pairwise distinct. */
  ghost predicate NoDuplicates<L>(order: seq<L>) {
    forall i, j :: 0 <= i < j < |order| ==> order[i] != order[j]
  }

  /**
   * The `for (label, location) in results_map` loop: one line per entry of
   * the map, in whatever order the map visits its keys. `order` is that visit
   * order: every label exactly once, and line `k` is the line of label `k`.
   */
  method EmitLines<L(==)>(resultsMap: map<L, RobotLocation>, abbr: L -> string)
    returns (lines: seq<LabelLine>, ghost order: seq<L>)
    ensures NoDuplicates(order) && |order| == |lines|
    ensures forall l :: l in resultsMap <==> l in order
    ensures forall k :: 0 <= k < |order| ==> lines[k] == LineOf(order[k], resultsMap[order[k]], abbr)
    ensures |lines| == |resultsMap.Keys|
    ensures forall l :: l in resultsMap ==> LineOf(l, resultsMap[l], abbr) in lines
    ensures forall k :: 0 <= k < |lines| ==> exists l :: l in resultsMap && lines[k] == LineOf(l, resultsMap[l], abbr)
  {
    lines := [];
    var keys := resultsMap.Keys;
    order := [];
    while keys != {}
      invariant forall l :: l in resultsMap <==> l in keys || l in order
      invariant forall l :: l in order ==> l !in keys
      invariant |order| == |lines| && NoDuplicates(order)
      invariant forall k :: 0 <= k < |order| ==> lines[k] == LineOf(order[k], resultsMap[order[k]], abbr)
      decreases |keys|
    {
      var l :| l in keys;
      lines := lines + [LineOf(l, resultsMap[l], abbr)];
      order := order + [l];
      keys := keys - {l};
    }
    VisitOrderLines(resultsMap, abbr, lines, order);
  }

  /**
   * Lines given by a visit order that lists every label once: every label's
   * line is present, every line is some label's, and there are as many lines
   * as labels.
   */
  lemma VisitOrderLines<L>(resultsMap: map<L, RobotLocation>, abbr: L -> string, lines: seq<LabelLine>, order: seq<L>)
    requires NoDuplicates(order) && |order| == |lines|
    requires forall l :: l in resultsMap <==> l in order
    requires forall k :: 0 <= k < |order| ==> lines[k] == LineOf(order[k], resultsMap[order[k]], abbr)
    ensures |lines| == |resultsMap.Keys|
    ensures forall l :: l in resultsMap ==> LineOf(l, resultsMap[l], abbr) in lines
    ensures forall k :: 0 <= k < |lines| ==> exists l :: l in resultsMap && lines[k] == LineOf(l, resultsMap[l], abbr)
  {
    DistinctCardinality(order);
    assert resultsMap.Keys == set l | l in order;
    forall l | l in resultsMap
      ensures LineOf(l, resultsMap[l], abbr) in lines
    {
      var k :| 0 <= k < |order| && order[k] == l;
      assert lines[k] == LineOf(l, resultsMap[l], abbr);
    }
  }

  /** A sequence without duplicates has as many distinct elements as entries. */
  lemma {:induction false} DistinctCardinality<L>(order: seq<L>)
    requires NoDuplicates(order)
    ensures |set l | l in order| == |order|
    decreases |order|
  {
    if |order| > 0 {
      var init := order[..|order| - 1];
      DistinctCardinality(init);
      assert (set l | l in order) == (set l | l in init) + {order[|order| - 1]};
    }
  }

  /**
   * The lines of one frame's label file: none without a point cloud, and
   * otherwise one per label of the merged map, each label once, in the visit
   * order `order`.
   */
  method FrameLines<L(==)>(locate: Option<seq<Option<seq<Option<RobotLocation>>>>>, detect: seq<Option<seq<Detection<L>>>>,
                           abbr: L -> string)
    returns (lines: seq<LabelLine>, ghost order: seq<L>)
    ensures locate.None? ==> lines == [] && order == []
    ensures locate.Some? ==>
              var m := LastWins(FrameEntries(locate.value, detect));
              && NoDuplicates(order) && |order| == |lines|
              && (forall l :: l in m <==> l in order)
              && (forall k :: 0 <= k < |order| ==> lines[k] == LineOf(order[k], m[order[k]], abbr))
              && |lines| == |m.Keys|
              && (forall l :: l in m ==> LineOf(l, m[l], abbr) in lines)
              && (forall k :: 0 <= k < |lines| ==> exists l :: l in m && lines[k] == LineOf(l, m[l], abbr))
  {
    if locate.None? {
      return [], [];
    }
    var resultsMap := MergeResults(locate.value, detect);
    lines, order := EmitLines(resultsMap, abbr);
    assert resultsMap == LastWins(FrameEntries(locate.value, detect));
  }
}
