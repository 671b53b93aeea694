/**
  The pytest plugin: how a run loads expectations, how its hooks change
  the two sets it keeps, which items it marks, and when it saves.
 */
module Plugin {
  import opened Wrappers
  import opened Ids
  import ExpectFile
  import Legacy

  /** The plugin's flags. `--warn-on-python-xfail` is registered, but no hook reads it. */
  datatype Options = Options(updateXfail: bool, skipXfail: bool, warnOnPythonXfail: bool)

  /** What `config.warn` was called with. */
  datatype Warning =
    | LoadFailed          // "failed to load expectation file"
    | UnsupportedVersion  // "test expectation file in unsupported version"

  /** What `load_expectations` did. */
  datatype LoadOutcome =
    | NoFile
    | Loaded(ids: set<Id>, warned: bool)
    | Raised

  /**
    `load_expectations` on the file's contents, None when there is no file.
    `unpack` stands for `umsgpack.unpack`: None when it raises or the value
    it decodes is not a map.
   */
  function Load(file: Option<seq<Byte>>, unpack: seq<Byte> -> Option<Legacy.State>, reader: Major): LoadOutcome
  {
    match file
    case None => NoFile
    case Some(data) =>
      if ExpectFile.HasMagic(data) then
        match ExpectFile.ParseFile(data, reader)
        case Err(_) => Raised
        case Ok(ids) => Loaded(ids, false)
      else
        match unpack(data)
        case None => Raised
        case Some(state) =>
          match Legacy.ParseLegacy(state, reader)
          case Err(_) => Raised
          case Ok(l) => Loaded(l.ids, l.warned)
  }

  datatype Outcome = Passed | Skipped | Failed

  /** A collector's report: its node id, its outcome, and the node ids of what it collected. */
  datatype CollectorReport = CollectorReport(nodeid: Id, outcome: Outcome, result: seq<Id>)

  /** A test's report for one phase of its run. */
  datatype RunReport = RunReport(nodeid: Id, failed: bool, keywords: set<string>)

  datatype Mark = Skip | Xfail

  /** A collected test item and the markers it carries. */
  datatype TestItem = TestItem(nodeid: Id, markers: seq<Mark>)

  /** What `pytest_sessionfinish` left on disk. */
  datatype SaveOutcome = NotSaved | Saved(written: seq<Byte>, complete: bool)

  /** The two sets the plugin keeps. */
  datatype Sets = Sets(fails: set<Id>, expectXfail: set<Id>)

  /** The sets after a collector's report. */
  function AfterCollect(sets: Sets, updateXfail: bool, report: CollectorReport): Sets
  {
    var passed := report.outcome == Passed || report.outcome == Skipped;
    if passed && !updateXfail then
      if report.nodeid in sets.expectXfail then
        sets.(expectXfail := sets.expectXfail - {report.nodeid} + (set c | c in report.result))
      else sets
    else if !passed && updateXfail then sets.(fails := sets.fails + {report.nodeid})
    else sets
  }

  /** The failures after a run report. */
  function AfterRun(fails: set<Id>, updateXfail: bool, report: RunReport): set<Id>
  {
    if updateXfail && report.failed && "xfail" !in report.keywords then fails + {report.nodeid} else fails
  }

  /** The marker an item gets, if any. */
  function MarkFor(nodeid: Id, expectXfail: set<Id>, updateXfail: bool, skipXfail: bool): seq<Mark>
  {
    if !updateXfail && nodeid in expectXfail then [if skipXfail then Skip else Xfail] else []
  }

  class ExpectationPlugin {
    const updateXfail: bool
    const skipXfail: bool
    const warnOnPythonXfail: bool
    /** `sys.version_info` of the running interpreter; its major version is the reader's and the writer's. */
    const version: ExpectFile.VersionInfo
    var fails: set<Id>
    var expectXfail: set<Id>
    /** The warnings this plugin passed to `config.warn`, oldest first. */
    var warnings: seq<Warning>

    constructor (options: Options, version: ExpectFile.VersionInfo)
      ensures updateXfail == options.updateXfail && skipXfail == options.skipXfail
      ensures warnOnPythonXfail == options.warnOnPythonXfail && this.version == version
      ensures fails == {} && expectXfail == {} && warnings == []
    {
      updateXfail := options.updateXfail;
      skipXfail := options.skipXfail;
      warnOnPythonXfail := options.warnOnPythonXfail;
      this.version := version;
      fails := {};
      expectXfail := {};
      warnings := [];
    }

    /**
      `load_expectations`: `expect_xfail` is replaced only when a reader
      returns; `raised` tells whether one raised.
     */
    method LoadExpectations(file: Option<seq<Byte>>, unpack: seq<Byte> -> Option<Legacy.State>) returns (raised: bool)
      modifies this
      ensures var o := Load(file, unpack, version.major);
        raised == o.Raised? &&
        expectXfail == (if o.Loaded? then o.ids else old(expectXfail)) &&
        warnings == old(warnings) + (if o.Loaded? && o.warned then [UnsupportedVersion] else []) &&
        fails == old(fails)
    {
      if file.None? {
        return false;
      }
      var data := file.value;
      if ExpectFile.HasMagic(data) {
        var r := ExpectFile.ReadFile(data, version.major);
        if r.Err? {
          return true;
        }
        expectXfail := r.value;
      } else {
        var state := unpack(data);
        if state.None? {
          return true;
        }
        var r := Legacy.LoadLegacy(state.value, version.major);
        if r.Err? {
          return true;
        }
        if r.value.warned {
          warnings := warnings + [UnsupportedVersion];
        }
        expectXfail := r.value.ids;
      }
      return false;
    }

    /** `pytest_collectreport`. */
    method CollectReport(report: CollectorReport)
      modifies this
      ensures Sets(fails, expectXfail) == AfterCollect(old(Sets(fails, expectXfail)), updateXfail, report)
      ensures warnings == old(warnings)
    {
      var passed := report.outcome == Passed || report.outcome == Skipped;
      if passed && !updateXfail {
        if report.nodeid in expectXfail {
          expectXfail := expectXfail - {report.nodeid};
          var i := 0;
          while i < |report.result|
            invariant 0 <= i <= |report.result|
            invariant expectXfail == old(expectXfail) - {report.nodeid} + (set j | 0 <= j < i :: report.result[j])
            invariant fails == old(fails) && warnings == old(warnings)
          {
            expectXfail := expectXfail + {report.result[i]};
            i := i + 1;
          }
          assert (set j | 0 <= j < i :: report.result[j]) == (set c | c in report.result);
        }
      } else if !passed && updateXfail {
        fails := fails + {report.nodeid};
      }
    }

    /** `pytest_collection_modifyitems`: every item whose node id is expected to fail gets one marker. */
    method ModifyItems(items: seq<TestItem>) returns (marked: seq<TestItem>)
      ensures |marked| == |items|
      ensures forall i :: 0 <= i < |items| ==>
        marked[i] == TestItem(items[i].nodeid, items[i].markers + MarkFor(items[i].nodeid, expectXfail, updateXfail, skipXfail))
    {
      marked := items;
      if !updateXfail {
        var i := 0;
        while i < |items|
          invariant 0 <= i <= |items| && |marked| == |items|
          invariant forall j :: 0 <= j < i ==>
            marked[j] == TestItem(items[j].nodeid, items[j].markers + MarkFor(items[j].nodeid, expectXfail, updateXfail, skipXfail))
          invariant forall j :: i <= j < |items| ==> marked[j] == items[j]
        {
          if items[i].nodeid in expectXfail {
            var mark := if skipXfail then Skip else Xfail;
            marked := marked[i := TestItem(items[i].nodeid, items[i].markers + [mark])];
          }
          i := i + 1;
        }
      }
    }

    /** `pytest_runtest_logreport`. */
    method RuntestLogreport(report: RunReport)
      modifies this
      ensures fails == AfterRun(old(fails), updateXfail, report)
      ensures expectXfail == old(expectXfail) && warnings == old(warnings)
    {
      if updateXfail && report.failed && "xfail" !in report.keywords {
        fails := fails + {report.nodeid};
      }
    }

    /**
      `pytest_sessionfinish`: the file is written when updating and not a
      worker process; `isWorker` stands for the session config having
      `slaveinput`.
     */
    method SessionFinish(isWorker: bool) returns (save: SaveOutcome)
      ensures save.Saved? <==> updateXfail && !isWorker
      ensures save.Saved? ==> ExpectFile.WriteOutcome(save.written, save.complete) == ExpectFile.WriteFile(fails, version)
    {
      if updateXfail && !isWorker {
        var written, complete := ExpectFile.MakeFile(fails, version);
        return Saved(written, complete);
      }
      return NotSaved;
    }
  }

  /** `pytest_configure`: the plugin, having loaded expectations unless it is updating them. */
  method Configure(options: Options, version: ExpectFile.VersionInfo, file: Option<seq<Byte>>,
                   unpack: seq<Byte> -> Option<Legacy.State>) returns (exp: ExpectationPlugin)
    ensures fresh(exp)
    ensures exp.updateXfail == options.updateXfail && exp.skipXfail == options.skipXfail && exp.version == version
    ensures exp.warnOnPythonXfail == options.warnOnPythonXfail
    ensures exp.fails == {}
    ensures options.updateXfail ==> exp.expectXfail == {} && exp.warnings == []
    ensures !options.updateXfail ==>
      var o := Load(file, unpack, version.major);
      exp.expectXfail == (if o.Loaded? then o.ids else {}) &&
      exp.warnings == (if o.Raised? then [LoadFailed] else if o.Loaded? && o.warned then [UnsupportedVersion] else [])
  {
    exp := new ExpectationPlugin(options, version);
    if !exp.updateXfail {
      var raised := exp.LoadExpectations(file, unpack);
      if raised {
        exp.warnings := exp.warnings + [LoadFailed];
      }
    }
  }

  // ---------------------------------------------------------------- properties

  /**
    An update run saves its failures; a check run under the same major
    version loads exactly those.
   */
  lemma UpdateThenCheck(fails: set<Id>, vi: ExpectFile.VersionInfo, unpack: seq<Byte> -> Option<Legacy.State>)
    requires ExpectFile.WriteFile(fails, vi).complete
    ensures Load(Some(ExpectFile.WriteFile(fails, vi).written), unpack, vi.major) == Loaded(fails, false)
  {
    ExpectFile.HeaderAlwaysWritten(fails, vi);
    ExpectFile.SameRegimeRoundTrip(fails, vi);
  }

  /**
    The check run that follows a complete save under the same interpreter:
    `_make_file` writes the failures, `pytest_configure` loads the saved file without a warning, and
    `pytest_collection_modifyitems` then gives exactly the items whose id
    failed one `xfail` marker.
   */
  method CheckAfterUpdate(fails: set<Id>, vi: ExpectFile.VersionInfo, unpack: seq<Byte> -> Option<Legacy.State>,
                          items: seq<TestItem>) returns (marked: seq<TestItem>, warnings: seq<Warning>)
    requires ExpectFile.WriteFile(fails, vi).complete
    ensures warnings == []
    ensures |marked| == |items|
    ensures forall i :: 0 <= i < |items| ==>
      marked[i].nodeid == items[i].nodeid &&
      marked[i].markers == items[i].markers + (if items[i].nodeid in fails then [Xfail] else [])
  {
    var written, _ := ExpectFile.MakeFile(fails, vi);
    UpdateThenCheck(fails, vi, unpack);
    var exp := Configure(Options(false, false, false), vi, Some(written), unpack);
    marked := exp.ModifyItems(items);
    warnings := exp.warnings;
  }

  /** A save that fails part way still leaves a text file, which loads as a subset of the failures, without a warning. */
  lemma FailedSaveLoadsSubset(fails: set<Id>, vi: ExpectFile.VersionInfo, unpack: seq<Byte> -> Option<Legacy.State>)
    requires !ExpectFile.WriteFile(fails, vi).complete
    ensures var o := Load(Some(ExpectFile.WriteFile(fails, vi).written), unpack, vi.major);
      o.Loaded? && o.ids <= fails && !o.warned
  {
    ExpectFile.HeaderAlwaysWritten(fails, vi);
    ExpectFile.PartialWriteReadsSubset(fails, vi);
  }

  /** Update mode never changes `expect_xfail`, and check mode never changes `fails`. */
  lemma CollectTouchesOneSet(sets: Sets, updateXfail: bool, report: CollectorReport)
    ensures updateXfail ==> AfterCollect(sets, updateXfail, report).expectXfail == sets.expectXfail
    ensures !updateXfail ==> AfterCollect(sets, updateXfail, report).fails == sets.fails
  {
  }

  /**
    In check mode a passing collector that was expected to fail is replaced
    by its children; it stays exactly when it is one of its own children.
    A collector that was not expected to fail changes nothing.
   */
  lemma CollectReplacesByChildren(sets: Sets, report: CollectorReport)
    requires report.outcome == Passed || report.outcome == Skipped
    ensures report.nodeid in sets.expectXfail ==>
      forall x :: x in AfterCollect(sets, false, report).expectXfail <==>
        (x in sets.expectXfail && x != report.nodeid) || x in report.result
    ensures report.nodeid in sets.expectXfail ==>
      (report.nodeid in AfterCollect(sets, false, report).expectXfail <==> report.nodeid in report.result)
    ensures report.nodeid !in sets.expectXfail ==> AfterCollect(sets, false, report) == sets
  {
  }

  /** In update mode a failed collector is recorded, and only a failed one. */
  lemma CollectRecordsFailures(sets: Sets, report: CollectorReport)
    ensures AfterCollect(sets, true, report).fails ==
      if report.outcome == Failed then sets.fails + {report.nodeid} else sets.fails
  {
  }

  /** A run report is recorded exactly when updating, failed and not an expected failure. */
  lemma RunRecordsFailures(fails: set<Id>, updateXfail: bool, report: RunReport)
    ensures fails <= AfterRun(fails, updateXfail, report)
    ensures report.nodeid in AfterRun(fails, updateXfail, report) <==>
      report.nodeid in fails || (updateXfail && report.failed && "xfail" !in report.keywords)
    ensures AfterRun(fails, updateXfail, report) - {report.nodeid} == fails - {report.nodeid}
  {
  }
}
