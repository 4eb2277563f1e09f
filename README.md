# Asynchronous logger: pool, queue, record formatting and file rotation

This project models the sequential core of a small asynchronous C++ logger and proves properties of it in Dafny.

- **Records** (`LogUnits`). A `LogUnit` holds a 2048-character buffer and a length. `Format` fills the buffer in three pieces: the local timestamp, the header `.<usec> <prefix> <file>:<line> `, and the message. Each piece is written with `snprintf` semantics at a moving position. The intended lengths are summed and clamped to 2047, and a newline is always written last. The pure function `Line` describes the resulting record, `Filled` describes the buffer after the three bounded writes and the newline, and `FilledRecord` proves that this buffer starts with that record.
- **Levels** (`LogLevels`). There are five severities, ordered as declared, and each has a one-letter prefix.
- **Pool and pending queue** (`Loggers`). `Logger` is a class holding the threshold, the created count, the LIFO free list, the pending queue, the stop flag and the consumer's position in its loop.
  - `PopUnit` filters by level, pops the newest free record, creates a record lazily, or reports that the caller would wait.
  - `PushUnit` appends a record to the pending queue.
  - `ConsumerStep` is one pass of the consumer loop: exit on stop, wait on an empty queue, or swap the queue into a batch, write the batch in order and return each record to the free list.
  - Ghost fields track the records held by producers, the history of pushes and the records written to the file. The class invariant states three things: every created record has exactly one owner, no more than `maxCnt` records exist, and pushes equal the records written followed by the records still queued.
- **Rotation** (`LogFiles`). `LogFile` keeps the rotation counters.
  - `CheckRotate` rotates because a day has passed (this check comes first), or because the size limit is reached, or does nothing.
  - `Write` runs the check and counts bytes only after a successful `fwrite`.
  - `Rotate` renames the file to `<file>.<YYYYMMDD>.<id>`. That name provably determines the base name, date and id it was built from.
  - The file-system calls are recorded in a ghost log.
- **Printf** renders and parses `%d` and `%06lld` fields, with round-trip proofs, and models C's truncating `%`. The microsecond count is a signed `long long`, so before the epoch `us % 1000000` is negative and `%06lld` prints a minus sign (`-00042`). **Wrappers** holds `Option`.

The scenarios `Loggers.BackpressureScenario`, `Loggers.StopWhileWaitingScenario`, `Loggers.PushAfterExitScenario`, `LogFiles.DayBoundaryScenario` and `LogFiles.SizeLimitScenario` are client methods. Each one shows that the contracts suffice to derive the expected behaviour:
- a pool of two exhausted by two held records;
- a stop that reaches a waiting consumer gets one more batch written, and then the loop ends;
- a record pushed after the consumer has exited stays queued and is never written;
- a day-boundary rename with yesterday's date and id 0;
- size-triggered ids 0, 1, … within a day.

Inputs from outside the program:
- The clock (`now`, the microsecond count `us`, negative before the epoch) and the timestamp text are parameters.
- Local midnight and `%Y%m%d` dates come from a `Calendar` value. Its assumed facts are `midnight(t) <= t` and that a date contains no '.'.
- The success of `fopen` and `fwrite` is given as input flags. A zero-length `fwrite` of one item never reports success, whatever the flag says.

The model follows the code in two places where a reader might expect otherwise:
- `stop()` notifies only the queue condition (src/logger.hpp:99-103), not the free-list condition, so the model makes no claim that stopping wakes producers waiting for a record.
- The free list is taken from its end (LIFO).

## Model

| member | source | states |
|---|---|---|
| `LogLevels.RanksFollowDeclaration` | src/logger.hpp:17-24 | the five levels have ordinals 0..4 in declaration order and there are no others |
| `LogLevels.BelowIsStrictTotalOrder` | src/logger.hpp:139 | the level comparison used for filtering is irreflexive, transitive and total |
| `LogLevels.PrefixIsOneDistinctLetter` | src/logger.hpp:28 | each prefix table entry is one character and distinct levels get distinct prefixes |
| `Printf.DecimalRoundTrip` | src/logfile.hpp:33 | the `%d` rendering of every integer parses back to that integer |
| `Printf.CRem` | src/logger.hpp:50 | C's `%` on `long long`: the remainder is smaller in magnitude than the divisor, has the sign of the dividend, and agrees with the mathematical remainder for a dividend that is not negative |
| `Printf.CRemOdd` | src/logger.hpp:50 | C's `%` of the negated dividend is the negated remainder |
| `Printf.PadSignedRoundTrip` | src/logger.hpp:50 | `%0<w>lld` of any integer, negative ones included, is at least `w` characters and parses back to that integer |
| `Printf.MicrosFieldWidth` | src/logger.hpp:50 | for a remainder within one second, `%06lld` gives exactly six digits when it is not negative, and a minus sign and six or seven characters when it is |
| `Printf.BeforeEpochField` | src/logger.hpp:40-50 | 42 microseconds before the epoch, the remainder is -42 and the field is `-00042` |
| `LogUnits.HeaderFields` | src/logger.hpp:50 | the header `Header` is the microsecond field, the level prefix, the file name and the line field in the `.%06lld %s %s:%d ` layout; the microsecond field has at least six characters and parses back to C's `us % 1000000`, the prefix is one character, and the line field parses back to the line |
| `LogUnits.HeaderLayout` | src/logger.hpp:50 | in that layout the header has length of its fields plus six, with '.' first, the microsecond field next, the one-letter prefix between two spaces, then the file name, ':', the line field and a final space, each at its computed position |
| `LogUnits.Kept` | src/logger.hpp:56-58 | the clamp of the summed length: a total below 2048 is kept, one of 2048 or more becomes 2047, and the result never exceeds the total |
| `LogUnits.Line` | src/logger.hpp:56-59 | a record is 1 to 2048 characters, its last character is the newline, and the characters before it are a prefix of the rendering |
| `LogUnits.LineFits` | src/logger.hpp:46-59 | a rendering shorter than 2048 is kept whole: length is its size plus one and the record is the rendering followed by the newline |
| `LogUnits.LineTruncated` | src/logger.hpp:54-59 | a rendering of 2048 or more gives length exactly 2048 whose first 2047 characters are the rendering's first 2047 |
| `LogUnits.FilledRecord` | src/logger.hpp:44-59 | after three bounded writes at positions advanced by the intended lengths, the length clamp to 2047 and the newline, the buffer starts with `Line` of the rendering (the whole rendering if it fits, else its first 2047 characters) and is untouched after it |
| `LogUnits.Snprintf` | src/logger.hpp:50-54 | one piece written with snprintf semantics: returns the intended length, stores at most room-1 characters and a NUL, changes nothing else |
| `LogUnits.LogUnit.constructor` | src/logger.hpp:32-33 | a new record has length 0 and a 2048-character buffer |
| `LogUnits.LogUnit.Format` | src/logger.hpp:39-60 | after formatting, the valid part of the buffer is `Line` of timestamp + header + message, with `1 <= length <= 2048`, newline last, the fit/truncation cases, and the rest of the buffer unchanged |
| `LogUnits.LogUnit.Fill` | src/logger.hpp:44-59 | the buffer-filling part of `format` for an already rendered header: the new buffer is `Filled` of the old one and the length is the clamped total plus one for the newline |
| `LogUnits.LogUnit.Length` | src/logger.hpp:62-64 | the reported length is at most 2048 and, when positive, ends on the newline |
| `Loggers.OwnedExactlyOnce` | src/logger.hpp:120-128 | under the ownership invariant every created record is in exactly one of free list, pending queue, batch or producer hands, and no other identity is anywhere |
| `Loggers.LiveBound` | src/logger.hpp:144-157 | the records in free list, queue, batch and producer hands number exactly as many as were created |
| `Loggers.Logger.constructor` | src/logger.hpp:79-83 | a new logger has the given threshold and capacity (default 50), no records, empty free list and queue, no stop request |
| `Loggers.Logger.PopUnit` | src/logger.hpp:138-160 | below the threshold or once stopped: no record and no state change; else the last free record is removed and returned with the count unchanged; else while the count is below capacity a new record with the next identity is returned and the count goes up by one; else the caller would wait and nothing changes; the count never exceeds capacity |
| `Loggers.Logger.PushUnit` | src/logger.hpp:132-136 | the record joins the end of the pending queue and nothing else changes |
| `Loggers.Logger.Stop` | src/logger.hpp:99-103 | the stop flag is set and nothing else changes |
| `Loggers.Logger.WriteBatch` | src/logger.hpp:122-127 | each record of the batch is written and returned to the end of the free list, in batch order; every record stays owned exactly once throughout |
| `Loggers.Logger.ConsumerStep` | src/logger.hpp:111-130 | once out of the loop nothing happens; a stop seen at the loop test ends the loop without touching the queue; an empty queue without stop waits; otherwise the whole queue becomes the batch, is written in queue order and returned to the free list in that order, and the queue is left empty; pushes always equal written records followed by queued ones |
| `LogFiles.RotatedName` | src/logfile.hpp:33 | `%s.%s.%d`: the name is as long as the three fields plus two dots, begins with the base name and a '.', and has a '.' just before the id |
| `LogFiles.RotatedNameRoundTrip` | src/logfile.hpp:27-33 | the rotated name `<file>.<date>.<id>` determines base name, date and id (for a date without '.') |
| `LogFiles.RotatedNamesDistinct` | src/logfile.hpp:33 | rotations of one file under different dates or ids get different names |
| `LogFiles.CalendarNameRoundTrip` | src/logfile.hpp:31-33 | under a sound calendar, every name a rotation at any time can produce gives back the base name, the date and the id |
| `LogFiles.LogFile.constructor` | src/logfile.hpp:12-21 | limits are days*86400 seconds and MB*1048576 bytes (defaults 1 and 16), counters start at 0, the day starts at midnight of the creation time which is not after it, and the file is removed then opened |
| `LogFiles.LogFile.Rotate` | src/logfile.hpp:27-37 | the file is closed, renamed to `<file>.<date(t)>.<id>` and the base name reopened |
| `LogFiles.LogFile.CheckRotate` | src/logfile.hpp:39-53 | strictly past lastRotate+rotateSecs: rotation with time now-86400 and the old id, then id 0, bytes 0, day = midnight(now); otherwise at or over the size limit: rotation with time now and the old id, id+1, bytes 0, day unchanged; otherwise no call and no change |
| `LogFiles.LogFile.Write` | src/logfile.hpp:55-63 | the rotation check's effect, then the bytes grow by exactly `length` iff the handle is usable, the record is not empty and `fwrite` succeeded, with a write and flush recorded; the bytes since rotation never exceed the limit by more than the one record |

## Left out

- Threads, mutexes, condition variables, `start`, `detach` and the wake-up semantics of `notify_one`. The model is sequential, one operation at a time.
- `Loggers.Logger.PopUnit`: the source waits on a condition variable and loops. The model returns `WouldBlock` and does not re-evaluate, so a caller models the wake-up by calling again.
- `Loggers.Logger.ConsumerStep`: writing a record through `LogFile::write` is an append of its identity to the ghost `written` log. Records are identities, not buffers. What the file does with each record is modelled on its own by `LogFiles.LogFile.Write`.
- `Logger::setLogFile`, the destructors, the `gInstance` global, `logRaw` (pop, format, push) and the logging macros. They are thin glue.
- main.cc is a multi-threaded demo driver and is not part of this model.
- Clock reads and `localtime_r`/`mktime`/`strftime`. The timestamp text and the microsecond count are parameters. Local midnight and the date are `Calendar` fields, and the only assumptions are `midnight(t) <= t` and that a date contains no '.'.
- printf template interpretation in `vsnprintf`: the message is given as its rendered text. A negative return (encoding error) is not modelled.
- `LogUnits.LogUnit.Format` requires the timestamp plus the header to be shorter than the buffer. Beyond the buffer's end the source advances its write position past the array, which is undefined behaviour. The precondition also leaves out the one defined case at the boundary: when the timestamp plus the header are exactly 2048 characters, the header is cut short, the write position lands exactly at the end of the buffer, the message write stores nothing, and the newline goes at index 2047.
- `strftime` is modelled like `snprintf`. The two agree when the piece fits, and that is the only case the precondition allows.
- `LogFiles.LogFile.Rotate`: the name is built as an unbounded string. The source's 1024-byte `sprintf` buffer `name` can overflow for long base names, and the model does not capture that. The date is written by a bounded `strftime` and cannot overflow its buffer.
- `LogFiles.LogFile.Rotate`: `fclose` of a null handle (after an earlier `fopen` failed) is undefined in C. The model records the close regardless. The results of `rename` and `remove` are not checked by the source and are not modelled.
- Integer widths:
  - Limits are computed in 32-bit `int`, and the constructor requires that they fit.
  - Negative day or size arguments are excluded by the `nat` parameters.
  - Overflow of the `int` counters `mLogUnitCnt`, `mRotateCnt` and `mLength` and of the `size_t` byte count is not modelled.
  - The unsigned comparison `now > mLastRotate + mRotateSecs` is modelled on mathematical integers. The two agree for times that are not negative.
- `Loggers.Logger.constructor`: `maxCnt` stands for the capacity reserved in the free list by `mFree(maxCnt)` followed by `resize(0)`. The C++ standard guarantees only that this capacity is at least `maxCnt`.
- `Loggers.Logger.constructor`: `maxCnt` is a `nat`. In the source it is an `int`, and a negative value makes the `std::vector` constructor throw `std::length_error`. That exception path is not modelled.
- `LogFiles.LogFile.Write`: `length` is a `nat`. The source's `int` length is converted to `size_t` by `fwrite`, so a negative length becomes a huge item size. That case is not modelled; `LogUnit` lengths are never negative.
- `LogUnits.LogUnit.Format`: the microsecond count is an unbounded integer, so overflow of the `long long` clock value is not modelled.
