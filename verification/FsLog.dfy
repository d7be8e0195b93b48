/** The space that a chunk of filewrite asks of the log, put together with what the log promises. */
module FsLog {
  import LogDisk
  import LogSystem
  import LogSafety
  import opened FsTree
  import opened FsWrite
  import opened FsBudget

  /**
   A chunk of filewrite that touches at most two bitmap blocks never meets
   log_write's panic, at any of its log_writes, in any reachable state of the
   log with more than LOGSIZE blocks: logs are the blocks it has logged so far,
   and number gives their block numbers.
   */
  lemma ChunkPasses(lay: LogDisk.Layout, s: LogSystem.State, st: LogSystem.Step, tx: Tx, logs: set<Logged>, number: Logged -> nat)
    requires LogSafety.Inv(lay, s) && LogSystem.Enabled(lay, s, st) && st.Check?
    requires TxFits(tx) && |Bitmaps(tx.logs)| <= 2 && |logs| <= tx.peak
    requires s.ops[st.p].wrote == set l | l in logs :: number(l)
    ensures !LogSystem.Do(lay, s, st).panicked
  {
    hide LogSafety.Inv, LogSystem.Do, LogSystem.IOEnabled;
    ImageSize(logs, number, s.ops[st.p].wrote);
    LogSafety.CheckPasses(lay, s, st);
  }
}
