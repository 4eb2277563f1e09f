/**
 * The log file with its rotation policy.  Before each write the file is
 * rotated when a day has passed since the last day boundary, or else when
 * the bytes written since the last rotation reach the size limit.
 * Rotation closes the file, renames it to `<file>.<YYYYMMDD>.<id>` and
 * reopens the base name.  The clock is a parameter, local midnight and
 * date rendering come from a `Calendar`, and the results of `fopen` and
 * `fwrite` are inputs; the file-system calls made are recorded in order.
 */
module LogFiles {
  import opened Wrappers
  import opened Printf

  const SecondsPerDay: nat := 24 * 3600
  const BytesPerMB: nat := 1024 * 1024
  /** Largest value of the 32-bit `int` in which the limits are computed. */
  const IntMax: int := 0x7fff_ffff

  /**
   * Local time, from outside the model: the start of the local day that
   * contains a time, and that day in `%Y%m%d` form.
   */
  datatype Calendar = Calendar(midnight: int -> int, date: int -> string)

  /**
   * What the model needs about local time: a day starts no later than
   * any time in it, and a `%Y%m%d` date, being all digits, has no '.'.
   */
  ghost predicate Sound(cal: Calendar)
  {
    && (forall t :: cal.midnight(t) <= t)
    && (forall t :: '.' !in cal.date(t))
  }

  /** A file-system call made by the log file, with the result it reported where that matters. */
  datatype FileAction =
    | Remove(path: string)
    | Fopen(path: string, ok: bool)
    | Fclose
    | Rename(from: string, to: string)
    | Fwrite(bytes: nat, ok: bool)
    | Fflush

  /** `"%s.%s.%d"` of the base name, the date and the rotation id. */
  function RotatedName(file: string, date: string, id: int): (r: string)
    ensures |r| == |file| + |date| + |Decimal(id)| + 2
    ensures r[..|file|] == file && r[|file|] == '.' && r[|r| - |Decimal(id)| - 1] == '.'
  {
    file + "." + date + "." + Decimal(id)
  }

  /** Split at the last occurrence of `c`, if there is one. */
  function SplitLast(s: string, c: char): Option<(string, string)>
  {
    if s == [] then None
    else if s[|s| - 1] == c then Some((s[..|s| - 1], []))
    else match SplitLast(s[..|s| - 1], c)
      case None => None
      case Some((a, b)) => Some((a, b + [s[|s| - 1]]))
  }

  lemma {:induction false} SplitLastAppend(a: string, c: char, b: string)
    requires c !in b
    ensures SplitLast(a + [c] + b, c) == Some((a, b))
  {
    var s := a + [c] + b;
    if b == [] {
      assert s[..|s| - 1] == a;
    } else {
      var b' := b[..|b| - 1];
      assert s[..|s| - 1] == a + [c] + b';
      assert b' + [b[|b| - 1]] == b;
      SplitLastAppend(a, c, b');
    }
  }

  /** Recover base name, date and id from a rotated file name. */
  function ParseRotatedName(name: string): Option<(string, string, int)>
  {
    match SplitLast(name, '.')
    case None => None
    case Some((rest, idText)) =>
      match SplitLast(rest, '.')
      case None => None
      case Some((file, date)) =>
        match ParseDecimal(idText)
        case None => None
        case Some(id) => Some((file, date, id))
  }

  /** A rotated name determines the base name, the date and the id it was built from. */
  lemma RotatedNameRoundTrip(file: string, date: string, id: int)
    requires '.' !in date
    ensures ParseRotatedName(RotatedName(file, date, id)) == Some((file, date, id))
  {
    var d := Decimal(id);
    assert '.' !in d;
    assert RotatedName(file, date, id) == (file + "." + date) + ['.'] + d;
    SplitLastAppend(file + "." + date, '.', d);
    assert file + "." + date == file + ['.'] + date;
    SplitLastAppend(file, '.', date);
    DecimalRoundTrip(id);
  }

  /** Rotations of one file under different dates or ids never reuse a name. */
  lemma RotatedNamesDistinct(file: string, date1: string, id1: int, date2: string, id2: int)
    requires '.' !in date1 && '.' !in date2
    requires date1 != date2 || id1 != id2
    ensures RotatedName(file, date1, id1) != RotatedName(file, date2, id2)
  {
    RotatedNameRoundTrip(file, date1, id1);
    RotatedNameRoundTrip(file, date2, id2);
  }

  /** Under a sound calendar, every name a rotation at time `t` can produce is recoverable. */
  lemma CalendarNameRoundTrip(cal: Calendar, file: string, t: int, id: int)
    requires Sound(cal)
    ensures ParseRotatedName(RotatedName(file, cal.date(t), id)) == Some((file, cal.date(t), id))
  {
    RotatedNameRoundTrip(file, cal.date(t), id);
  }

  class LogFile {
    const filename: string
    const cal: Calendar
    /** Longest time between day-boundary rotations, in seconds. */
    const rotateSecs: nat
    /** Size that triggers a rotation, in bytes. */
    const rotateBytes: nat
    /** Start of the day of the last day-boundary rotation (or of creation). */
    var lastRotate: int
    /** Bytes written since the last rotation. */
    var totalBytes: nat
    /** Id of the next size-triggered rotation of the day. */
    var rotateCnt: nat
    /** Whether the file handle is usable. */
    var fileOpen: bool
    /** The file-system calls made so far, in order. */
    ghost var actions: seq<FileAction>

    ghost predicate Valid()
      reads this
    {
      Sound(cal)
    }

    /** What `rotate(t, id)` does to the file system. */
    ghost function RotationActions(t: int, id: nat, reopened: bool): seq<FileAction>
    {
      [Fclose, Rename(filename, RotatedName(filename, cal.date(t), id)), Fopen(filename, reopened)]
    }

    /** What the write step does to the file system after the rotation check. */
    ghost function WriteActions(open: bool, length: nat, ok: bool): seq<FileAction>
    {
      if !open then [] else if ok && length > 0 then [Fwrite(length, true), Fflush] else [Fwrite(length, false)]
    }

    /**
     * Start a fresh log at `filename` at time `now`: the old file is
     * removed and the name reopened for append (`openOk` is whether that
     * succeeded); limits are converted from days and megabytes.
     */
    constructor (filename: string, now: int, openOk: bool, cal: Calendar, rotateDay: nat := 1, rotateSize: nat := 16)
      requires Sound(cal)
      requires rotateDay * SecondsPerDay <= IntMax && rotateSize * BytesPerMB <= IntMax
      ensures Valid()
      ensures this.filename == filename && this.cal == cal
      ensures rotateSecs == rotateDay * 86400 && rotateBytes == rotateSize * 1048576
      ensures totalBytes == 0 && rotateCnt == 0
      ensures lastRotate == cal.midnight(now) && lastRotate <= now
      ensures fileOpen == openOk
      ensures actions == [Remove(filename), Fopen(filename, openOk)]
    {
      this.filename := filename;
      this.cal := cal;
      totalBytes := 0;
      rotateCnt := 0;
      rotateSecs := rotateDay * SecondsPerDay;
      rotateBytes := rotateSize * BytesPerMB;
      actions := [Remove(filename), Fopen(filename, openOk)];
      fileOpen := openOk;
      lastRotate := cal.midnight(now);
    }

    /** Fclose the file, rename it after the date of `t` and `id`, and reopen the base name. */
    method Rotate(t: int, id: nat, reopened: bool)
      modifies this`fileOpen, this`actions
      ensures fileOpen == reopened
      ensures actions == old(actions) + RotationActions(t, id, reopened)
    {
      var name := RotatedName(filename, cal.date(t), id);
      actions := actions + [Fclose];
      actions := actions + [Rename(filename, name)];
      fileOpen := reopened;
      actions := actions + [Fopen(filename, reopened)];
    }

    /**
     * The rotation check at time `now`.  A day boundary takes priority:
     * the file is named after yesterday and the current id, the id and
     * the byte count restart, and the day advances.  Otherwise a full
     * file is named after today and the current id, the id goes up and
     * the byte count restarts.  Otherwise nothing happens.
     */
    method CheckRotate(now: int, reopened: bool)
      requires Valid()
      modifies this`lastRotate, this`totalBytes, this`rotateCnt, this`fileOpen, this`actions
      ensures Valid()
      ensures now > old(lastRotate) + rotateSecs ==>
                && actions == old(actions) + RotationActions(now - SecondsPerDay, old(rotateCnt), reopened)
                && fileOpen == reopened
                && rotateCnt == 0 && totalBytes == 0
                && lastRotate == cal.midnight(now) && lastRotate <= now
      ensures !(now > old(lastRotate) + rotateSecs) && old(totalBytes) >= rotateBytes ==>
                && actions == old(actions) + RotationActions(now, old(rotateCnt), reopened)
                && fileOpen == reopened
                && rotateCnt == old(rotateCnt) + 1 && totalBytes == 0
                && lastRotate == old(lastRotate)
      ensures !(now > old(lastRotate) + rotateSecs) && old(totalBytes) < rotateBytes ==>
                && actions == old(actions) && fileOpen == old(fileOpen)
                && rotateCnt == old(rotateCnt) && totalBytes == old(totalBytes)
                && lastRotate == old(lastRotate)
    {
      if now > lastRotate + rotateSecs {
        var id := rotateCnt;
        rotateCnt := rotateCnt + 1;
        Rotate(now - SecondsPerDay, id, reopened);
        totalBytes := 0;
        rotateCnt := 0;
        lastRotate := cal.midnight(now);
      } else if totalBytes >= rotateBytes {
        var id := rotateCnt;
        rotateCnt := rotateCnt + 1;
        Rotate(now, id, reopened);
        totalBytes := 0;
      }
    }

    /**
     * Write one record of `length` bytes at time `now`: run the rotation
     * check, then, if the file is usable, write the record; `written` is
     * whether `fwrite` could write its one item of `length` bytes, which
     * it never reports for an item of 0 bytes.  Only a successful write
     * is flushed and counted.  So the bytes since the last rotation never
     * exceed the size limit by more than the one record.
     */
    method Write(length: nat, now: int, reopened: bool, written: bool)
      requires Valid()
      modifies this`lastRotate, this`totalBytes, this`rotateCnt, this`fileOpen, this`actions
      ensures Valid()
      ensures var byTime := now > old(lastRotate) + rotateSecs;
              var bySize := !byTime && old(totalBytes) >= rotateBytes;
              && fileOpen == (if byTime || bySize then reopened else old(fileOpen))
              && totalBytes == (if byTime || bySize then 0 else old(totalBytes))
                               + (if fileOpen && written && length > 0 then length else 0)
              && rotateCnt == (if byTime then 0 else if bySize then old(rotateCnt) + 1 else old(rotateCnt))
              && lastRotate == (if byTime then cal.midnight(now) else old(lastRotate))
              && actions == old(actions)
                            + (if byTime then RotationActions(now - SecondsPerDay, old(rotateCnt), reopened)
                               else if bySize then RotationActions(now, old(rotateCnt), reopened)
                               else [])
                            + WriteActions(fileOpen, length, written)
      ensures totalBytes <= length || totalBytes < rotateBytes + length
    {
      CheckRotate(now, reopened);
      if fileOpen {
        if written && length > 0 {
          totalBytes := totalBytes + length;
          actions := actions + [Fwrite(length, true), Fflush];
        } else {
          actions := actions + [Fwrite(length, false)];
        }
      }
    }
  }

  /** Midnight in UTC, with days written as day numbers; enough for the scenarios below. */
  function DayNumberCalendar(): (cal: Calendar)
    ensures Sound(cal)
  {
    Calendar(t => t - t % SecondsPerDay, t => Decimal(t / SecondsPerDay))
  }

  /** With the default limits, a write after the day has passed renames the file after yesterday with id 0. */
  method DayBoundaryScenario()
  {
    var cal := DayNumberCalendar();
    var f := new LogFile("server.log", 100, true, cal);
    assert f.rotateSecs == 86400 && f.rotateBytes == 16777216;
    assert f.lastRotate == 0;
    f.Write(60, 3600, true, true);
    assert f.totalBytes == 60 && f.rotateCnt == 0;
    f.Write(60, 86401, true, true);
    assert f.rotateCnt == 0 && f.totalBytes == 60 && f.lastRotate == 86400;
    assert f.actions[4..7] == f.RotationActions(1, 0, true);
    assert cal.date(1) == "0" && Decimal(0) == "0";
    assert f.actions[5] == Rename("server.log", "server.log.0.0");
  }

  /** The names the scenarios below expect for rotations of `server.log` on day 0. */
  lemma ServerLogNames()
    ensures RotatedName("server.log", "0", 0) == "server.log.0.0"
    ensures RotatedName("server.log", "0", 1) == "server.log.0.1"
  {
    assert Decimal(0) == "0" && Decimal(1) == "1";
  }

  /** With a zero size limit every write first rotates, with ids 0, 1, ... within the day. */
  method SizeLimitScenario()
  {
    var cal := DayNumberCalendar();
    var f := new LogFile("server.log", 100, true, cal, 1, 0);
    assert f.rotateBytes == 0;
    assert cal.date(200) == "0" && cal.date(300) == "0" && Decimal(0) == "0" && Decimal(1) == "1";
    ServerLogNames();
    f.Write(60, 200, true, true);
    assert f.rotateCnt == 1 && f.totalBytes == 60;
    assert f.actions[2..5] == f.RotationActions(200, 0, true);
    assert f.actions[3] == Rename("server.log", "server.log.0.0");
    f.Write(60, 300, true, false);
    assert f.rotateCnt == 2 && f.totalBytes == 0;
    assert f.actions[7..10] == f.RotationActions(300, 1, true);
    assert f.actions[8] == Rename("server.log", "server.log.0.1");
  }
}
