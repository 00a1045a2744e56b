/** The bounded log files of the desktop application (apps/desktop/src/logging.ts). */
module LogRotation {
  import opened Utf8

  type Record = Bytes
  type LogFile = seq<Record>

  /** The directory: file 0 is `main.log`, file `i` is `main.log.i`. */
  type Files = map<nat, LogFile>

  function Size(f: LogFile): nat {
    if f == [] then 0 else Size(f[..|f| - 1]) + |f[|f| - 1]|
  }

  /** " [truncated]" and a newline. */
  const MARK: Text := [32, 91, 116, 114, 117, 110, 99, 97, 116, 101, 100, 93, 10]

  /** The bytes appended for a line of text. */
  function RecordOf(line: Text, maxBytes: nat): Record
    requires maxBytes >= 128
  {
    if |Encode(line)| > maxBytes then Encode(Cut(line, maxBytes - 16) + MARK) else Encode(line)
  }

  lemma RecordFits(line: Text, maxBytes: nat)
    requires maxBytes >= 128 && line != []
    ensures 0 < |RecordOf(line, maxBytes)| <= maxBytes
  {
    if |Encode(line)| > maxBytes {
      CutIsPrefix(line, maxBytes - 16);
      MarkIsAscii();
      AsciiSuffix(Cut(line, maxBytes - 16), MARK);
    }
  }

  /** The log loses a replacement character of the message itself when the cut falls right behind
      it: the strip takes it for one of its own. */
  lemma OwnReplacementIsLost(p: Text, rest: Text, maxBytes: nat)
    requires maxBytes >= 128 && |Encode(p)| == maxBytes - 19
    requires |Encode(p + [REPLACEMENT] + rest)| > maxBytes
    ensures RecordOf(p + [REPLACEMENT] + rest, maxBytes) == Encode(p + MARK)
  {
    var q := p + [REPLACEMENT];
    EncodeAppends(p, [REPLACEMENT]);
    assert |Encode([REPLACEMENT])| == 3;
    CutAtPrefix(q, rest);
    assert q[..|q| - 1] == p;
  }

  lemma CutAtPrefix(q: Text, rest: Text)
    ensures |Encode(q)| <= |Encode(q + rest)| && Cut(q + rest, |Encode(q)|) == StripReplacement(q)
  {
    EncodeAppends(q, rest);
    FittingOfPrefix(q, rest);
    assert (q + rest)[..|q|] == q;
    DecodeOfCut(q + rest, |Encode(q)|);
    assert q + [] == q;
  }

  predicate Ascii(t: Text) {
    forall i :: 0 <= i < |t| ==> t[i] < 0x80
  }

  lemma MarkIsAscii()
    ensures Ascii(MARK) && |MARK| == 13
  {
  }

  lemma AsciiSuffix(s: Text, t: Text)
    requires Ascii(t)
    ensures |Encode(s + t)| == |Encode(s)| + |t|
  {
    EncodeAppends(s, t);
    AsciiLength(t);
  }

  lemma {:induction false} AsciiLength(t: Text)
    requires Ascii(t)
    ensures |Encode(t)| == |t|
  {
    if t != [] {
      AsciiLength(t[1..]);
    }
  }

  /** `renameSync` of file `i` to the next number, if it exists. */
  function Rename(files: Files, i: nat): Files {
    if i in files then files[i + 1 := files[i]] - {i} else files
  }

  /** The renames from file `index` down to file 1. */
  function Shift(files: Files, index: nat): Files
    decreases index
  {
    if index == 0 then files else Shift(Rename(files, index), index - 1)
  }

  /** Removes the last backup and moves every other file up one number. */
  function Rotated(files: Files, backups: nat): Files
    requires backups >= 1
  {
    Rename(Shift(files - {backups}, backups - 1), 0)
  }

  function Current(files: Files): LogFile {
    if 0 in files then files[0] else []
  }

  function Written(files: Files, record: Record, maxBytes: nat, backups: nat): Files
    requires backups >= 1
  {
    var size := Size(Current(files));
    var room := if size > 0 && size + |record| > maxBytes then Rotated(files, backups) else files;
    room[0 := Current(room) + [record]]
  }

  // ---- what the files hold ----

  /** Files 0 to `n - 1` exist and no others, each with a record and none over the limit. */
  ghost predicate Tidy(files: Files, n: nat, maxBytes: nat, backups: nat) {
    && n <= backups + 1
    && (forall i: nat :: i in files <==> i < n)
    && (forall i: nat :: i in files ==> files[i] != [] && Size(files[i]) <= maxBytes && NoEmptyRecord(files[i]))
  }

  predicate NoEmptyRecord(f: LogFile) {
    forall i :: 0 <= i < |f| ==> f[i] != []
  }

  /** The records of files `n - 1` down to 0, oldest first. */
  ghost function Held(files: Files, n: nat): seq<Record>
    requires Has(files, n)
  {
    if n == 0 then [] else files[n - 1] + Held(files, n - 1)
  }

  ghost predicate IsSuffix(s: seq<Record>, all: seq<Record>) {
    |s| <= |all| && all[|all| - |s|..] == s
  }

  lemma {:induction false} HeldAppends(files: Files, after: Files, n: nat, record: Record)
    requires n >= 1 && Has(files, n) && Has(after, n)
    requires after[0] == files[0] + [record] && forall i: nat :: 1 <= i < n ==> after[i] == files[i]
    ensures Held(after, n) == Held(files, n) + [record]
  {
    if n > 1 {
      HeldAppends(files, after, n - 1, record);
    }
  }

  /** Files 1 to `m` of `after` are files 0 to `m - 1` of `files`. */
  ghost predicate ShiftedUp(files: Files, after: Files, m: nat) {
    forall i: nat :: 1 <= i <= m ==> i in after && i - 1 in files && after[i] == files[i - 1]
  }

  ghost predicate Has(files: Files, n: nat) {
    forall i: nat :: i < n ==> i in files
  }

  lemma ShiftedHas(files: Files, after: Files, m: nat)
    requires ShiftedUp(files, after, m) && 0 in after
    ensures Has(files, m) && Has(after, m + 1)
  {
    forall i: nat | i < m
      ensures i in files
    {
      assert i + 1 in after && (i + 1) - 1 in files;
    }
  }

  /** After a rotation files 1 to `m` hold what files 0 to `m - 1` held. */
  lemma {:induction false} HeldShifts(files: Files, after: Files, m: nat)
    requires ShiftedUp(files, after, m) && 0 in after && Has(files, m) && Has(after, m + 1)
    ensures Held(after, m + 1) == Held(files, m) + after[0]
  {
    if m > 0 {
      HeldShifts(files, after, m - 1);
      assert after[m] == files[m - 1];
    } else {
      assert Held(after, 1) == after[0] + Held(after, 0);
    }
  }

  lemma SizeOfAppend(f: LogFile, record: Record)
    ensures Size(f + [record]) == Size(f) + |record|
  {
    assert (f + [record])[..|f|] == f;
  }

  lemma SizeIsZeroOnlyWhenEmpty(f: LogFile)
    requires f != [] && NoEmptyRecord(f)
    ensures Size(f) > 0
  {
    assert f[|f| - 1] != [];
  }

  /** Where file `i` of `r` comes from, when files 1 to `index` of `files` moved up. */
  ghost predicate MovedUp(files: Files, r: Files, index: nat, i: nat) {
    if i == 0 || i > index + 1 then (i in r <==> i in files) && (i in r ==> r[i] == files[i])
    else if i == 1 then i !in r
    else (i in r <==> i - 1 in files) && (i in r ==> r[i] == files[i - 1])
  }

  lemma {:induction false} ShiftContents(files: Files, index: nat, i: nat)
    requires index + 1 !in files
    ensures MovedUp(files, Shift(files, index), index, i)
    decreases index
  {
    if index > 0 {
      var next := Rename(files, index);
      ShiftContents(next, index - 1, i);
      RenameContents(files, next, Shift(next, index - 1), index, i);
    }
  }

  lemma RenameContents(files: Files, next: Files, r: Files, index: nat, i: nat)
    requires index > 0 && index + 1 !in files && next == Rename(files, index) && MovedUp(next, r, index - 1, i)
    ensures MovedUp(files, r, index, i)
  {
  }

  lemma RotatedAt(files: Files, backups: nat, i: nat)
    requires backups >= 1 && 0 in files
    ensures
      var r := Rotated(files, backups);
      && (i in r <==> if i <= backups then i >= 1 && i - 1 in files else i in files)
      && (1 <= i <= backups && i in r ==> r[i] == files[i - 1])
  {
    var kept := files - {backups};
    ShiftContents(kept, backups - 1, i);
    ShiftContents(kept, backups - 1, 0);
  }

  lemma RotationContents(files: Files, n: nat, maxBytes: nat, backups: nat)
    requires Tidy(files, n, maxBytes, backups) && n >= 1 && backups >= 1
    ensures
      var r := Rotated(files, backups);
      var m := if n <= backups then n else backups;
      && (forall i: nat :: i in r <==> 1 <= i <= m)
      && ShiftedUp(files, r, m)
  {
    var r := Rotated(files, backups);
    var m := if n <= backups then n else backups;
    forall i: nat
      ensures i in r <==> 1 <= i <= m
      ensures 1 <= i <= m ==> i - 1 in files && r[i] == files[i - 1]
    {
      RotatedAt(files, backups, i);
    }
  }

  /** The number of files after a write. */
  function CountAfter(files: Files, n: nat, record: Record, maxBytes: nat, backups: nat): nat {
    if n == 0 then 1
    else if Size(Current(files)) + |record| > maxBytes then (if n <= backups then n + 1 else backups + 1)
    else n
  }

  /** The records a write drops: the oldest file's, when every backup is in use and the record
      does not fit, and none otherwise. */
  function Lost(files: Files, n: nat, record: Record, maxBytes: nat, backups: nat): seq<Record>
    requires n > 0 ==> n - 1 in files
  {
    if n == backups + 1 && Size(Current(files)) + |record| > maxBytes then files[n - 1] else []
  }

  /** A write keeps the files tidy, appends its record at the new end and drops only what it must. */
  lemma WriteKeeps(files: Files, n: nat, record: Record, maxBytes: nat, backups: nat)
    requires Tidy(files, n, maxBytes, backups) && backups >= 1 && 0 < |record| <= maxBytes
    ensures
      Grown(files, n, Written(files, record, maxBytes, backups), CountAfter(files, n, record, maxBytes, backups),
        record, Lost(files, n, record, maxBytes, backups), maxBytes, backups)
  {
    if n == 0 {
      FirstWrite(files, Written(files, record, maxBytes, backups), record, maxBytes, backups);
    } else {
      SizeIsZeroOnlyWhenEmpty(files[0]);
      if Size(files[0]) + |record| > maxBytes {
        OverflowKeeps(files, n, record, maxBytes, backups);
      } else {
        AppendingWrite(files, n, files[0 := files[0] + [record]], record, maxBytes, backups);
      }
    }
  }

  lemma OverflowKeeps(files: Files, n: nat, record: Record, maxBytes: nat, backups: nat)
    requires Tidy(files, n, maxBytes, backups) && n >= 1 && backups >= 1 && 0 < |record| <= maxBytes
    requires Size(files[0]) > 0 && Size(files[0]) + |record| > maxBytes
    ensures
      Grown(files, n, Written(files, record, maxBytes, backups), if n <= backups then n + 1 else backups + 1,
        record, Lost(files, n, record, maxBytes, backups), maxBytes, backups)
  {
    RotationContents(files, n, maxBytes, backups);
    WrittenAfterRotation(files, n, Rotated(files, backups), record, maxBytes, backups);
  }

  lemma WrittenAfterRotation(files: Files, n: nat, r: Files, record: Record, maxBytes: nat, backups: nat)
    requires Tidy(files, n, maxBytes, backups) && n >= 1 && 0 < |record| <= maxBytes
    requires Size(files[0]) + |record| > maxBytes
    requires
      var m := if n <= backups then n else backups;
      (forall i: nat :: i in r <==> 1 <= i <= m) && ShiftedUp(files, r, m)
    ensures
      Grown(files, n, r[0 := Current(r) + [record]], if n <= backups then n + 1 else backups + 1,
        record, Lost(files, n, record, maxBytes, backups), maxBytes, backups)
  {
    var after := r[0 := Current(r) + [record]];
    if n <= backups {
      RotatingWrite(files, n, r, n, after, record, maxBytes, backups);
    } else {
      LostWhenFull(files, n, record, maxBytes, backups);
      RotatingWrite(files, n, r, backups, after, record, maxBytes, backups);
    }
  }

  lemma LostWhenFull(files: Files, n: nat, record: Record, maxBytes: nat, backups: nat)
    requires Tidy(files, n, maxBytes, backups) && n >= 1 && n > backups && Size(files[0]) + |record| > maxBytes
    ensures n == backups + 1 && Lost(files, n, record, maxBytes, backups) == files[n - 1]
  {}

  /** `after` is tidy, and holds what `files` held followed by the record, but for the lost
      records at the old end. */
  ghost predicate Grown(files: Files, n: nat, after: Files, m: nat, record: Record, lost: seq<Record>,
                        maxBytes: nat, backups: nat)
    requires Has(files, n)
  {
    && Tidy(after, m, maxBytes, backups) && m >= 1
    && Held(files, n) + [record] == lost + Held(after, m)
    && record in after[0]
  }

  lemma FirstWrite(files: Files, after: Files, record: Record, maxBytes: nat, backups: nat)
    requires Tidy(files, 0, maxBytes, backups) && 0 < |record| <= maxBytes
    requires after == files[0 := [] + [record]]
    ensures Grown(files, 0, after, 1, record, [], maxBytes, backups)
  {
    SizeOfAppend([], record);
    assert after[0] == [record];
    assert Held(after, 1) == after[0] + Held(after, 0);
  }

  lemma AppendingWrite(files: Files, n: nat, after: Files, record: Record, maxBytes: nat, backups: nat)
    requires Tidy(files, n, maxBytes, backups) && n >= 1 && record != []
    requires Size(files[0]) + |record| <= maxBytes && after == files[0 := files[0] + [record]]
    ensures Grown(files, n, after, n, record, [], maxBytes, backups)
  {
    SizeOfAppend(files[0], record);
    HeldAppends(files, after, n, record);
    assert after[0][|files[0]|] == record;
  }

  /** A rotation for a record leaves the record alone in `main.log`. */
  lemma RotatingWrite(files: Files, n: nat, r: Files, m: nat, after: Files, record: Record, maxBytes: nat,
                      backups: nat)
    requires Tidy(files, n, maxBytes, backups) && 0 < |record| <= maxBytes
    requires (m == n || m + 1 == n) && m <= backups && (forall i: nat :: i in r <==> 1 <= i <= m)
    requires ShiftedUp(files, r, m) && after == r[0 := Current(r) + [record]]
    ensures Grown(files, n, after, m + 1, record, if m == n then [] else files[n - 1], maxBytes, backups)
  {
    SizeOfAppend([], record);
    assert [] + [record] == [record];
    assert after[0] == [record];
    RotatedIsTidy(files, n, after, record, m, maxBytes, backups);
    RotatedHolds(files, n, after, m, record);
  }

  lemma RotatedHolds(files: Files, n: nat, after: Files, m: nat, record: Record)
    requires Has(files, n) && (m == n || m + 1 == n)
    requires ShiftedUp(files, after, m) && 0 in after && after[0] == [record]
    ensures Has(after, m + 1)
    ensures Held(files, n) + [record] == (if m == n then [] else files[n - 1]) + Held(after, m + 1)
  {
    ShiftedHas(files, after, m);
    HeldShifts(files, after, m);
    OldestDropped(files, n, m, record);
  }

  lemma RotatedIsTidy(files: Files, n: nat, after: Files, record: Record, m: nat, maxBytes: nat, backups: nat)
    requires Tidy(files, n, maxBytes, backups) && m <= n && m <= backups && ShiftedUp(files, after, m)
    requires 0 in after && after[0] == [record] && record != [] && Size([record]) <= maxBytes
    requires forall i: nat :: i in after <==> i <= m
    ensures Tidy(after, m + 1, maxBytes, backups)
  {
    forall i: nat | i in after
      ensures after[i] != [] && Size(after[i]) <= maxBytes && NoEmptyRecord(after[i])
    {
      if i > 0 {
        assert after[i] == files[i - 1];
      }
    }
  }

  lemma OldestDropped(files: Files, n: nat, m: nat, record: Record)
    requires Has(files, n) && (m == n || m + 1 == n)
    ensures Held(files, n) + [record] == (if m == n then [] else files[n - 1]) + (Held(files, m) + [record])
  {
    if m + 1 == n {
      assert Held(files, n) == files[n - 1] + Held(files, m);
    }
  }

  // ---- rotation happens only when it must ----

  /** Backup `i + 1` had no room for the first record of file `i`. */
  ghost predicate NoRoom(files: Files, i: nat, maxBytes: nat) {
    i in files && i + 1 in files && files[i] != [] && Size(files[i + 1]) + |files[i][0]| > maxBytes
  }

  ghost predicate Packed(files: Files, n: nat, maxBytes: nat) {
    forall i: nat :: i < n - 1 ==> NoRoom(files, i, maxBytes)
  }

  /** Every write leaves each backup too full for the record that was put after it. */
  lemma WriteKeepsPacked(files: Files, n: nat, record: Record, maxBytes: nat, backups: nat)
    requires Tidy(files, n, maxBytes, backups) && Packed(files, n, maxBytes) && backups >= 1 && 0 < |record| <= maxBytes
    ensures Packed(Written(files, record, maxBytes, backups), CountAfter(files, n, record, maxBytes, backups), maxBytes)
  {
    if n > 0 {
      SizeIsZeroOnlyWhenEmpty(files[0]);
      if Size(files[0]) + |record| > maxBytes {
        var r := Rotated(files, backups);
        RotationContents(files, n, maxBytes, backups);
        RotatingIsPacked(files, n, r, if n <= backups then n else backups, record, maxBytes);
      } else {
        AppendingIsPacked(files, n, record, maxBytes);
      }
    }
  }

  lemma RotatingIsPacked(files: Files, n: nat, r: Files, m: nat, record: Record, maxBytes: nat)
    requires Packed(files, n, maxBytes) && ShiftedUp(files, r, m) && m <= n && 0 !in r
    requires 0 in files && Size(files[0]) + |record| > maxBytes
    ensures Packed(r[0 := Current(r) + [record]], m + 1, maxBytes)
  {
    var after := r[0 := Current(r) + [record]];
    assert after[0] == [record];
    forall i: nat | i < m
      ensures NoRoom(after, i, maxBytes)
    {
      assert after[i + 1] == files[i];
      if i > 0 {
        assert after[i] == files[i - 1] && NoRoom(files, i - 1, maxBytes);
      }
    }
  }

  lemma AppendingIsPacked(files: Files, n: nat, record: Record, maxBytes: nat)
    requires Packed(files, n, maxBytes) && 0 in files && files[0] != []
    ensures Packed(files[0 := files[0] + [record]], n, maxBytes)
  {
    var after := files[0 := files[0] + [record]];
    forall i: nat | i < n - 1
      ensures NoRoom(after, i, maxBytes)
    {
      assert NoRoom(files, i, maxBytes);
    }
  }

  /** The directory after a sequence of lines. */
  function AfterWrites(lines: seq<Text>, maxBytes: nat, backups: nat): Files
    requires maxBytes >= 128 && backups >= 1
  {
    if lines == [] then map[]
    else
      var last := |lines| - 1;
      Written(AfterWrites(lines[..last], maxBytes, backups), RecordOf(lines[last], maxBytes), maxBytes, backups)
  }

  function Records(lines: seq<Text>, maxBytes: nat): seq<Record>
    requires maxBytes >= 128
  {
    if lines == [] then []
    else Records(lines[..|lines| - 1], maxBytes) + [RecordOf(lines[|lines| - 1], maxBytes)]
  }

  /** From a fresh directory, after any sequence of writes: the files are numbered without a gap,
      at most `backups + 1` of them, none over the limit, and oldest to newest they hold a
      contiguous suffix of the written records that ends with the last one. No backup had room
      for the record written after it, and until every file is in use nothing is lost. */
  lemma {:induction false} LogIsBoundedSuffix(lines: seq<Text>, maxBytes: nat, backups: nat) returns (n: nat)
    requires maxBytes >= 128 && backups >= 1 && forall i :: 0 <= i < |lines| ==> lines[i] != []
    ensures
      var files := AfterWrites(lines, maxBytes, backups);
      && Tidy(files, n, maxBytes, backups)
      && IsSuffix(Held(files, n), Records(lines, maxBytes))
      && Packed(files, n, maxBytes)
      && (n <= backups ==> Held(files, n) == Records(lines, maxBytes))
      && (lines != [] ==> n >= 1 && RecordOf(lines[|lines| - 1], maxBytes) in files[0])
  {
    if lines == [] {
      n := 0;
    } else {
      var front, line := lines[..|lines| - 1], lines[|lines| - 1];
      var before := AfterWrites(front, maxBytes, backups);
      var record := RecordOf(line, maxBytes);
      var k := LogIsBoundedSuffix(front, maxBytes, backups);
      RecordFits(line, maxBytes);
      WriteKeeps(before, k, record, maxBytes, backups);
      WriteKeepsPacked(before, k, record, maxBytes, backups);
      n := CountAfter(before, k, record, maxBytes, backups);
      var lost := Lost(before, k, record, maxBytes, backups);
      SuffixOfSuffix(
        Held(AfterWrites(lines, maxBytes, backups), n), lost, Held(before, k), Records(front, maxBytes), record);
    }
  }

  lemma SuffixOfSuffix(s: seq<Record>, lost: seq<Record>, t: seq<Record>, all: seq<Record>, record: Record)
    requires t + [record] == lost + s && IsSuffix(t, all)
    ensures IsSuffix(s, all + [record])
    ensures lost == [] && t == all ==> s == all + [record]
  {
    assert s == (lost + s)[|lost|..];
    var longer := all + [record];
    assert t + [record] == longer[|all| - |t|..];
    assert longer[|longer| - |s|..] == (t + [record])[|t| + 1 - |s|..];
  }

  /** `DesktopFileLog`. */
  class DesktopFileLog {
    const maxBytes: nat
    const backups: nat
    var files: Files

    constructor (maxBytes: nat, backups: nat)
      requires maxBytes >= 128 && 1 <= backups <= 10
      ensures this.maxBytes == maxBytes && this.backups == backups && files == map[]
    {
      this.maxBytes, this.backups := maxBytes, backups;
      files := map[];
    }

    method Write(line: Text)
      requires maxBytes >= 128 && backups >= 1
      modifies this
      ensures files == Written(old(files), RecordOf(line, maxBytes), maxBytes, backups)
    {
      var record := Encode(line);
      if |record| > maxBytes {
        record := Encode(Cut(line, maxBytes - 16) + MARK);
      }
      var size := if 0 in files then Size(files[0]) else 0;
      if size > 0 && size + |record| > maxBytes {
        Rotate();
      }
      files := files[0 := (if 0 in files then files[0] else []) + [record]];
    }

    /** Removes the last backup and renames the others upwards, the newest last. */
    method Rotate()
      requires backups >= 1
      modifies this
      ensures files == Rotated(old(files), backups)
    {
      files := files - {backups};
      var index := backups - 1;
      while index >= 1
        invariant 0 <= index < backups
        invariant Rename(Shift(files, index), 0) == Rotated(old(files), backups)
      {
        if index in files {
          files := files[index + 1 := files[index]] - {index};
        }
        index := index - 1;
      }
      if 0 in files {
        files := files[1 := files[0]] - {0};
      }
    }
  }
}
