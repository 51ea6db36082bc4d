/** The write-ahead log: buffered, flushed now and then, compacted in place, read back as if it were append-only. */
module WriteAheadLog {

  datatype Entry = Entry(kind: string, time: int, data: string)

  /** The last `n` elements, or all of them. */
  function Last<T>(s: seq<T>, n: nat): seq<T>
  {
    if n >= |s| then s else s[|s| - n..]
  }

  /** Reading a suffix that is long enough is as good as reading everything. */
  lemma LastOfSuffix<T>(all: seq<T>, kept: seq<T>, n: nat)
    requires |kept| <= |all| && kept == all[|all| - |kept|..]
    requires n <= |kept| || |kept| == |all|
    ensures Last(kept, n) == Last(all, n)
  {
  }

  /** Exactly when a bounded read shows the log as it would be without compaction. */
  lemma LastOfSuffixOnly<T>(all: seq<T>, kept: seq<T>, n: nat)
    requires |kept| <= |all| && kept == all[|all| - |kept|..]
    ensures Last(kept, n) == Last(all, n) <==> n <= |kept| || |kept| == |all|
  {
    if n <= |kept| || |kept| == |all| {
      LastOfSuffix(all, kept, n);
    } else {
      assert |Last(kept, n)| == |kept| < |Last(all, n)|;
    }
  }

  /** The window that slides over the decoded entries keeps the last `limit` of them. */
  method ReadEntries(file: seq<Entry>, limit0: int) returns (out: seq<Entry>)
    ensures out == Last(file, if limit0 <= 0 then 256 else limit0)
  {
    var limit: nat := if limit0 <= 0 then 256 else limit0;
    out := [];
    for i := 0 to |file|
      invariant out == Last(file[..i], limit)
    {
      assert file[..i + 1] == file[..i] + [file[i]];
      if |out| < limit {
        out := out + [file[i]];
      } else {
        out := out[1..] + [file[i]];
      }
    }
    assert file[..|file|] == file;
  }

  /** `kept` is the end of `all`, and either all of it or at least `least` entries. */
  ghost predicate Retains(all: seq<Entry>, kept: seq<Entry>, least: nat)
  {
    && |kept| <= |all| && kept == all[|all| - |kept|..]
    && (|kept| == |all| || |kept| >= least)
  }

  lemma RetainsMore(all: seq<Entry>, kept: seq<Entry>, least: nat, entry: Entry)
    requires Retains(all, kept, least)
    ensures Retains(all + [entry], kept + [entry], least)
  {
  }

  lemma RetainsLast(all: seq<Entry>, kept: seq<Entry>, least: nat)
    requires Retains(all, kept, least) && least > 0
    ensures Retains(all, Last(kept, least), least)
  {
  }

  class Wal {
    var file: seq<Entry>
    var buffer: seq<Entry>
    var writes: nat
    const flushEvery: nat
    const maxEntries: nat
    var open: bool
    /** Everything that was in the file at the start or appended since. */
    ghost var all: seq<Entry>
    /** How many entries the file had at the start. */
    ghost const found: nat

    ghost predicate Consistent()
      reads this
    {
      && flushEvery > 0 && maxEntries > 0
      && Retains(all, file + buffer, maxEntries)
      && |buffer| <= writes % flushEvery
      && |file| + |buffer| <= found + writes
      && (!open ==> buffer == [])
    }

    /** Between calls the counter, and with it the file, is bounded. */
    ghost predicate Valid()
      reads this
    {
      Consistent() && writes <= 2 * maxEntries
    }

    constructor (existing: seq<Entry>, flushEvery0: int, maxEntries0: int)
      ensures Valid() && open && all == existing && buffer == [] && found == |existing|
      ensures flushEvery == (if flushEvery0 <= 0 then 128 else flushEvery0)
      ensures maxEntries == (if maxEntries0 <= 0 then 2048 else maxEntries0)
    {
      file, buffer, writes, open, all, found := existing, [], 0, true, existing, |existing|;
      flushEvery := if flushEvery0 <= 0 then 128 else flushEvery0;
      maxEntries := if maxEntries0 <= 0 then 2048 else maxEntries0;
    }

    /** Writes the whole buffer to the file. */
    method Flush()
      requires Consistent()
      modifies `file, `buffer
      ensures Consistent() && buffer == [] && file == old(file + buffer)
    {
      file, buffer := file + buffer, [];
      assert file + buffer == old(file + buffer);
    }

    /**
     * Encodes the entry into the buffer; a buffer that overflows writes some of its entries, oldest first, on its own
     * (`spilled` of them). A checkpoint, and every flushEvery-th write, flushes everything.
     */
    method AppendEncoded(entry: Entry, spilled: nat) returns (ok: bool)
      requires Valid() && spilled <= |buffer| + 1
      modifies this
      ensures ok == old(open) && open == old(open)
      ensures !ok ==> all == old(all) && file == old(file) && buffer == old(buffer)
      ensures |file| <= found + 2 * maxEntries
      ensures ok ==> all == old(all) + [entry]
      ensures Valid() && |buffer| < flushEvery
      ensures ok && entry.kind == "checkpoint" ==> buffer == []
    {
      if !open {
        return false;
      }
      ok := true;
      ghost var kept, before := file + buffer, writes;
      var pending := buffer + [entry];
      file, buffer := file + pending[..spilled], pending[spilled..];
      all := all + [entry];
      writes := writes + 1;
      assert file + buffer == kept + [entry];
      RetainsMore(old(all), kept, maxEntries, entry);
      Remainder(before, flushEvery);
      if entry.kind == "checkpoint" || writes % flushEvery == 0 {
        file, buffer := file + buffer, [];
        assert file + buffer == kept + [entry];
      }
      if writes > maxEntries * 2 {
        CompactLocked();
      }
    }

    /** Rewrites the file with its last maxEntries entries. */
    method CompactLocked()
      requires Consistent()
      modifies this
      ensures Valid() && buffer == [] && all == old(all) && open == old(open)
      ensures file == Last(old(file + buffer), maxEntries)
    {
      Flush();
      var entries := ReadEntries(file, maxEntries);
      assert file + buffer == file;
      RetainsLast(all, file, maxEntries);
      file := entries;
      assert file + buffer == file;
      writes := |entries|;
    }

    /** Flushes, then reads the end of the file; a closed log has no path left to read from. */
    method ReadAll(limit: int) returns (out: seq<Entry>, ok: bool)
      requires Valid()
      modifies `file, `buffer
      ensures Valid() && all == old(all) && ok == open
      ensures !ok ==> out == [] && file == old(file)
      ensures ok ==> buffer == [] && out == Last(file, if limit <= 0 then 256 else limit)
      ensures ok && 0 < limit <= maxEntries ==> out == Last(all, limit)
      ensures ok ==> var n := if limit <= 0 then 256 else limit;
                     out == Last(all, n) <==> n <= |file| || |file| == |all|
    {
      if !open {
        return [], false;
      }
      Flush();
      assert file + buffer == file;
      out := ReadEntries(file, limit);
      ghost var n := if limit <= 0 then 256 else limit;
      LastOfSuffixOnly(all, file, n);
      ok := true;
    }

    /** The last flush; nothing appended is lost, beyond what compaction dropped. */
    method Close()
      requires Valid()
      modifies this
      ensures Valid() && !open && buffer == [] && all == old(all) && file == old(file + buffer)
    {
      if open {
        Flush();
        open := false;
      } else {
        assert file + buffer == file;
      }
    }
  }

  lemma RemainderUnique(n: nat, d: nat, q: nat, r: nat)
    requires r < d && n == q * d + r
    ensures n % d == r
  {
    var q0, r0 := n / d, n % d;
    assert n == q0 * d + r0;
    if q0 > q {
      Distribute(q0, q, d);
      TimesAtLeast(q0 - q, d);
    } else if q > q0 {
      Distribute(q, q0, d);
      TimesAtLeast(q - q0, d);
    }
  }

  lemma Distribute(a: nat, b: nat, d: nat)
    requires a >= b
    ensures a * d == b * d + (a - b) * d
  {
  }

  lemma TimesAtLeast(k: nat, d: nat)
    requires k >= 1
    ensures k * d >= d
  {
  }

  /** Counting one more write moves the position in the flush period by one, or back to its start. */
  lemma Remainder(writes: nat, period: nat)
    requires period > 0
    ensures (writes + 1) % period == 0 || (writes + 1) % period == writes % period + 1
  {
    var q, r := writes / period, writes % period;
    if r + 1 < period {
      RemainderUnique(writes + 1, period, q, r + 1);
    } else {
      Distribute(q + 1, q, period);
      RemainderUnique(writes + 1, period, q + 1, 0);
    }
  }

  /** Any appends, with any spills, followed by a read: the last entries of all that were ever appended. */
  method AppendThenRead(wal: Wal, entries: seq<Entry>, limit: int) returns (out: seq<Entry>)
    requires wal.Valid() && wal.open && 0 < limit <= wal.maxEntries
    modifies wal
    ensures out == Last(old(wal.all) + entries, limit)
  {
    for i := 0 to |entries|
      invariant wal.Valid() && wal.open && wal.all == old(wal.all) + entries[..i]
    {
      var spilled :| 0 <= spilled <= |wal.buffer| + 1;
      var ok := wal.AppendEncoded(entries[i], spilled);
      assert entries[..i + 1] == entries[..i] + [entries[i]];
    }
    assert entries[..|entries|] == entries;
    var ok;
    out, ok := wal.ReadAll(limit);
  }
}
