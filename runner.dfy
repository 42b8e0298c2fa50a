/*
 * The run-state record `control` of the workspace cleaner and the part of
 * `main` that writes it (cy-runner.js:7-14, 29-51). The vendor CLI
 * bootstrap, the listing subprocess, the toolbelt and the clock are not
 * modelled: what they hand back is passed in.
 */
module Runner {
  import opened Listing
  import opened Cleanup

  datatype Option<T> = None | Some(value: T)

  /** Run state shared with the reporting step; only `timing` changes in this flow. */
  class Control {
    var start: int
    var timing: map<string, int>
    var specsFailed: seq<string>
    var specsSkipped: seq<string>
    var specsPassed: seq<string>
    var runUrl: Option<string>

    /** The record as created at load time, with `start` taken from the clock. */
    constructor (start: int)
      ensures this.start == start && timing == map[]
      ensures specsFailed == [] && specsSkipped == [] && specsPassed == []
      ensures runUrl == None
    {
      this.start := start;
      timing := map[];
      specsFailed, specsSkipped, specsPassed := [], [], [];
      runUrl := None;
    }

    /**
     * `main` from the bootstrap result on: records the CLI time, cleans
     * the workspaces named by the captured listing and records the total
     * time. `listing` is `None` when the listing subprocess exits non-zero;
     * that error is not caught, so the run stops before any deletion and
     * `total` is never written. `results[i]` is the toolbelt's `success`
     * flag for the i-th delete call.
     */
    method CleanWorkspaces(cliTime: int, listing: Option<string>, results: seq<bool>, totalTime: int)
      returns (commands: seq<string>, messages: seq<Message>)
      requires listing.Some? ==> CallCount(Tokens(listing.value)) <= |results|
      modifies this
      ensures start == old(start) && runUrl == old(runUrl)
      ensures specsFailed == old(specsFailed) && specsSkipped == old(specsSkipped) && specsPassed == old(specsPassed)
      ensures listing.None? ==>
        commands == [] && messages == [] && timing == old(timing)["vtexCli" := cliTime]
      ensures listing.Some? ==>
        commands == Commands(Tokens(listing.value)) &&
        messages == Messages(Tokens(listing.value), results) &&
        timing == old(timing)["vtexCli" := cliTime]["total" := totalTime]
    {
      timing := timing["vtexCli" := cliTime];
      match listing
      case None =>
        commands, messages := [], [];
      case Some(text) =>
        var tokens := Tokens(text);
        commands, messages := Clean(tokens, results);
        timing := timing["total" := totalTime];
    }
  }

  /**
   * The whole script: the record is created, then `main` runs once. On a
   * successful listing the timings hold exactly `vtexCli` and `total`, and
   * no other field of the record has moved.
   */
  method RunScript(start: int, cliTime: int, listing: Option<string>, results: seq<bool>, totalTime: int)
    returns (control: Control, commands: seq<string>, messages: seq<Message>)
    requires listing.Some? ==> CallCount(Tokens(listing.value)) <= |results|
    ensures fresh(control)
    ensures control.start == start && control.runUrl == None
    ensures control.specsFailed == [] && control.specsSkipped == [] && control.specsPassed == []
    ensures control.timing.Keys == if listing.Some? then {"vtexCli", "total"} else {"vtexCli"}
    ensures control.timing["vtexCli"] == cliTime
    ensures listing.Some? ==> control.timing["total"] == totalTime
    ensures listing.Some? ==>
      commands == Commands(Tokens(listing.value)) && messages == Messages(Tokens(listing.value), results)
    ensures listing.None? ==> commands == [] && messages == []
  {
    control := new Control(start);
    commands, messages := control.CleanWorkspaces(cliTime, listing, results, totalTime);
  }
}
