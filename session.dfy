/**
 * Streamlit's per-session state as the CPD pages use it: the in-memory log,
 * the goal list, the two confirmation flags of the settings page, and the
 * data directory the store writes to.
 */
module Session {
  import opened Storage

  class SessionState {
    var cpdLog: seq<CpdEntry>
    var pdpGoals: seq<PdpGoal>
    var showClearCpdConfirm: bool
    var showClearPdpConfirm: bool
    const disk: Disk

    /** The first run of the home page: each collection is loaded from its
        file once; neither confirmation is pending. */
    constructor (disk: Disk, eval: Evaluator)
      ensures this.disk == disk
      ensures cpdLog == LoadedCpd(disk.cpd, eval)
      ensures pdpGoals == LoadedPdp(disk.pdp)
      ensures !showClearCpdConfirm && !showClearPdpConfirm
    {
      var log := disk.LoadCpd(eval);
      var goals := disk.LoadPdp();
      this.disk := disk;
      cpdLog, pdpGoals := log, goals;
      showClearCpdConfirm, showClearPdpConfirm := false, false;
    }

    /** A session whose first page is the CPD overview: that page puts an
        empty log into the session without reading the file, so the home
        page's guard later loads only the goals. */
    constructor OpenedOnCpdPage(disk: Disk)
      ensures this.disk == disk
      ensures cpdLog == []
      ensures pdpGoals == LoadedPdp(disk.pdp)
      ensures !showClearCpdConfirm && !showClearPdpConfirm
    {
      var goals := disk.LoadPdp();
      this.disk := disk;
      cpdLog, pdpGoals := [], goals;
      showClearCpdConfirm, showClearPdpConfirm := false, false;
    }
  }
}
