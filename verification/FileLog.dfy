/** filewrite (kernel/file.c) on the log (kernel/log.c). */
module FileLog {
  import opened Params
  import opened LogCalls
  import opened FileLayout
  import opened FileSystem
  import LogSpace
  import GroupCommit

  /** Operations in the log, each of which is one of these transactions or makes
      its calls in the same orderly way. */
  ghost predicate Among(scripts: map<int, seq<int>>, txns: seq<seq<int>>) {
    forall p {:trigger p in scripts} :: p in scripts ==> scripts[p] in txns || Orderly(scripts[p])
  }

  /** filewrite, on a disk of any size: however its transactions meet in the log
      with each other and with those of other filewrites, log_write never finds
      the log full, and end_op never panics either; and whatever it changes on
      disk is in one of its transactions. */
  method LoggedWrite(fs: FileSys, f: File, src: seq<int>, n: int, bads: seq<int>)
    returns (ret: int, ghost done: int, ghost txns: seq<seq<int>>)
    requires fs.Valid() && 0 <= f.inum < fs.inode.Length && Bytes(src) && n <= |src| && 0 <= f.off < WORDS
    modifies fs.bits, fs.disk, fs.inode, fs.dinode, fs`logged, fs`calls, fs`owner, f`off
    ensures 0 <= done <= |src| && f.off == old(f.off) + done && ret == (if f.writable && done == n then n else -1)
    ensures fs.Valid() && Filed(old(fs.Snapshot()), fs.Snapshot(), f.inum, old(f.off), src[..done])
    ensures AllCovered(old(fs.Snapshot()), old(fs.dinode[..]), fs.Snapshot(), fs.dinode[..],
                       txns, fs.bmapstart, fs.inodestart)
    ensures forall r: seq<GroupCommit.Sys>, start: int, scripts: map<int, seq<int>> ::
      LogSpace.RunBy(r, start, scripts) && Among(scripts, txns) ==> !r[|r| - 1].panicked
  {
    ret, done, txns := fs.FileWrite(f, src, n, bads);
    TransactionsNeverPanic(fs, txns);
  }

  lemma TransactionsNeverPanic(fs: FileSys, txns: seq<seq<int>>)
    requires fs.AllSmall(txns)
    ensures forall r: seq<GroupCommit.Sys>, start: int, scripts: map<int, seq<int>> ::
      LogSpace.RunBy(r, start, scripts) && Among(scripts, txns) ==> !r[|r| - 1].panicked
  {
    forall r: seq<GroupCommit.Sys>, start: int, scripts: map<int, seq<int>>
      | LogSpace.RunBy(r, start, scripts) && Among(scripts, txns)
      ensures !r[|r| - 1].panicked
    {
      forall p | p in scripts ensures Orderly(scripts[p]) {
        if t :| 0 <= t < |txns| && txns[t] == scripts[p] {
          assert fs.Small(txns[t]);
        }
      }
      LogSpace.OrderlyNeverPanic(r, start, scripts);
    }
  }
}
