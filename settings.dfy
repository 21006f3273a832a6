/**
 * The settings page: clearing the CPD log or the PDP goals takes two
 * clicks. The first button only raises a confirmation flag; "Yes" empties
 * the collection in memory, writes the empty file and then removes it;
 * "Cancel" only lowers the flag. Each half touches its own collection only.
 */
module Settings {
  import opened Storage
  import opened Session

  /** "Clear CPD Log": ask for confirmation; nothing is cleared yet. */
  method PressClearCpd(s: SessionState)
    modifies s
    ensures s.showClearCpdConfirm
    ensures s.cpdLog == old(s.cpdLog) && s.pdpGoals == old(s.pdpGoals)
    ensures s.showClearPdpConfirm == old(s.showClearPdpConfirm)
    ensures unchanged(s.disk)
  {
    s.showClearCpdConfirm := true;
  }

  /** "Yes, clear CPD log": the log is emptied, its file ends up absent and
      the flag is lowered; the goals and their file are untouched. */
  method ConfirmClearCpd(s: SessionState)
    requires s.showClearCpdConfirm
    modifies s, s.disk
    ensures s.cpdLog == [] && s.disk.cpd.Absent?
    ensures !s.showClearCpdConfirm
    ensures s.pdpGoals == old(s.pdpGoals) && s.disk.pdp == old(s.disk.pdp)
    ensures s.showClearPdpConfirm == old(s.showClearPdpConfirm)
  {
    s.cpdLog := [];
    s.disk.SaveCpd([]);
    if s.disk.CpdExists() {
      s.disk.RemoveCpd();
    }
    s.showClearCpdConfirm := false;
  }

  /** "Cancel" under the CPD question: only the flag is lowered. */
  method CancelClearCpd(s: SessionState)
    requires s.showClearCpdConfirm
    modifies s
    ensures !s.showClearCpdConfirm
    ensures s.cpdLog == old(s.cpdLog) && s.pdpGoals == old(s.pdpGoals)
    ensures s.showClearPdpConfirm == old(s.showClearPdpConfirm)
    ensures unchanged(s.disk)
  {
    s.showClearCpdConfirm := false;
  }

  /** "Clear PDP Goals": ask for confirmation; nothing is cleared yet. */
  method PressClearPdp(s: SessionState)
    modifies s
    ensures s.showClearPdpConfirm
    ensures s.cpdLog == old(s.cpdLog) && s.pdpGoals == old(s.pdpGoals)
    ensures s.showClearCpdConfirm == old(s.showClearCpdConfirm)
    ensures unchanged(s.disk)
  {
    s.showClearPdpConfirm := true;
  }

  /** "Yes, clear PDP goals": the goals are emptied, their file ends up
      absent and the flag is lowered; the log and its file are untouched. */
  method ConfirmClearPdp(s: SessionState)
    requires s.showClearPdpConfirm
    modifies s, s.disk
    ensures s.pdpGoals == [] && s.disk.pdp.Absent?
    ensures !s.showClearPdpConfirm
    ensures s.cpdLog == old(s.cpdLog) && s.disk.cpd == old(s.disk.cpd)
    ensures s.showClearCpdConfirm == old(s.showClearCpdConfirm)
  {
    s.pdpGoals := [];
    s.disk.SavePdp([]);
    if s.disk.PdpExists() {
      s.disk.RemovePdp();
    }
    s.showClearPdpConfirm := false;
  }

  /** "Cancel" under the PDP question: only the flag is lowered. */
  method CancelClearPdp(s: SessionState)
    requires s.showClearPdpConfirm
    modifies s
    ensures !s.showClearPdpConfirm
    ensures s.cpdLog == old(s.cpdLog) && s.pdpGoals == old(s.pdpGoals)
    ensures s.showClearCpdConfirm == old(s.showClearCpdConfirm)
    ensures unchanged(s.disk)
  {
    s.showClearPdpConfirm := false;
  }

  /** Clearing the CPD log and loading again gives no entries, while the
      goals load as they did before. */
  method ReloadAfterClearCpd(s: SessionState, eval: Evaluator)
    returns (entries: seq<CpdEntry>, goals: seq<PdpGoal>)
    modifies s, s.disk
    ensures entries == [] && s.cpdLog == []
    ensures goals == LoadedPdp(old(s.disk.pdp))
  {
    PressClearCpd(s);
    ConfirmClearCpd(s);
    entries := s.disk.LoadCpd(eval);
    goals := s.disk.LoadPdp();
  }

  /** Clearing the PDP goals and loading again gives no goals, while the log
      loads as it did before. */
  method ReloadAfterClearPdp(s: SessionState, eval: Evaluator)
    returns (entries: seq<CpdEntry>, goals: seq<PdpGoal>)
    modifies s, s.disk
    ensures goals == [] && s.pdpGoals == []
    ensures entries == LoadedCpd(old(s.disk.cpd), eval)
  {
    PressClearPdp(s);
    ConfirmClearPdp(s);
    entries := s.disk.LoadCpd(eval);
    goals := s.disk.LoadPdp();
  }
}
