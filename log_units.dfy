/**
 * A log record: a fixed 2048-character buffer and the number of
 * characters of it that are valid.  `Format` fills the buffer in three
 * pieces (timestamp, header, message), each written through a moving
 * position with snprintf semantics, clamps the summed length and always
 * ends the record with a newline.
 */
module LogUnits {
  import opened LogLevels
  import opened Printf
  import opened Wrappers

  /** Capacity of a record buffer, newline included. */
  const MaxLength: nat := 2048

  function Min(a: int, b: int): int
  {
    if a < b then a else b
  }

  /**
   * The buffer `b` after `snprintf(b + p, len, "%s", piece)`: if there is
   * room at all, as much of `piece` as fits in `len - 1` characters,
   * then a terminating NUL; everything else is left alone.  The
   * function's own result, `|piece|`, is the length it meant to write.
   * `strftime` behaves the same way when the piece fits, which is the
   * only case `Format` allows for the timestamp.
   */
  function Stored(b: seq<char>, p: nat, len: nat, piece: string): (r: seq<char>)
    requires p + len <= |b|
    ensures |r| == |b|
  {
    if len == 0 then b
    else
      var k := Min(|piece|, len - 1);
      b[..p] + piece[..k] + ['\0'] + b[p + k + 1..]
  }

  lemma StoredAt(b: seq<char>, p: nat, len: nat, piece: string, j: nat)
    requires p + len <= |b| && 0 < len && j < |b|
    ensures var k := Min(|piece|, len - 1);
            Stored(b, p, len, piece)[j] ==
              if p <= j < p + k then piece[j - p]
              else if j == p + k then '\0'
              else b[j]
  {
  }

  /** The characters a record stands for before truncation. */
  function Rendering(stamp: string, header: string, message: string): string
  {
    stamp + header + message
  }

  /**
   * The header `.%06lld %s %s:%d ` that follows the timestamp: the
   * microseconds within the second (C's remainder, so negative before the
   * epoch), the level's prefix and the source location of the call.
   */
  function Header(us: int, level: Level, filename: string, line: int): string
  {
    HeaderText(PadSigned(CRem(us, 1000000), 6), level.Prefix(), filename, Decimal(line))
  }

  /** The header template `.<m> <p> <file>:<d> ` filled with already rendered fields. */
  function HeaderText(m: string, p: string, filename: string, d: string): string
  {
    "." + m + " " + p + " " + filename + ":" + d + " "
  }

  /**
   * The header is the template filled with three rendered fields that
   * carry their values: the microsecond field parses back to the
   * microseconds within the second, the prefix is one character, and the
   * line field parses back to the line.  `HeaderLayout` says where each
   * field sits in the template, so all of them can be cut back out.
   */
  lemma HeaderFields(us: int, level: Level, filename: string, line: int)
    ensures var m, d := PadSigned(CRem(us, 1000000), 6), Decimal(line);
            && Header(us, level, filename, line) == HeaderText(m, level.Prefix(), filename, d)
            && ParseDecimal(m) == Some(CRem(us, 1000000)) && |m| >= 6
            && |level.Prefix()| == 1
            && ParseDecimal(d) == Some(line)
  {
    PrefixIsOneDistinctLetter(level, level);
    PadSignedRoundTrip(CRem(us, 1000000), 6);
    DecimalRoundTrip(line);
  }

  /** Where each piece of `.<m> <p> <file>:<d> ` sits, for a one-character `p`. */
  lemma HeaderLayout(m: string, p: string, filename: string, d: string)
    requires |p| == 1
    ensures var h, f := HeaderText(m, p, filename, d), 4 + |m|;
            && |h| == |m| + |filename| + |d| + 6
            && h[0] == '.' && h[1..1 + |m|] == m
            && h[1 + |m|] == ' ' && h[2 + |m|] == p[0] && h[3 + |m|] == ' '
            && h[f..f + |filename|] == filename && h[f + |filename|] == ':'
            && h[f + |filename| + 1..|h| - 1] == d
            && h[|h| - 1] == ' '
  {
    var a := "." + m + " " + p + " " + filename + ":";
    var h := a + d + " ";
    var f := 4 + |m|;
    assert |a| == f + |filename| + 1;
    assert h[..|a|] == a;
    assert h[|a|..|h| - 1] == d;
    assert a[1..1 + |m|] == m;
    assert h[1..1 + |m|] == m;
    assert a[f..f + |filename|] == filename;
  }

  /** How many characters of a rendering of size `n` survive: all of them below `MaxLength`, else `MaxLength - 1`. */
  function Kept(n: nat): (k: nat)
    ensures k <= n && k < MaxLength
    ensures n < MaxLength ==> k == n
    ensures n >= MaxLength ==> k == MaxLength - 1
  {
    if n >= MaxLength then MaxLength - 1 else n
  }

  /**
   * The record a rendering becomes: its first `Kept` characters and a
   * newline, so 1 to 2048 characters, ending with the newline, the rest a
   * prefix of the rendering.
   */
  function Line(rendering: string): (l: string)
    ensures 1 <= |l| <= MaxLength
    ensures l[|l| - 1] == '\n'
    ensures l[..|l| - 1] <= rendering
  {
    rendering[..Kept(|rendering|)] + "\n"
  }

  /** A rendering shorter than the buffer is kept whole, followed by the newline. */
  lemma LineFits(rendering: string)
    requires |rendering| < MaxLength
    ensures |Line(rendering)| == |rendering| + 1
    ensures Line(rendering) == rendering + "\n"
  {
    assert rendering[..|rendering|] == rendering;
  }

  /** A longer rendering is cut to its first 2047 characters, which fill the buffer with the newline. */
  lemma LineTruncated(rendering: string)
    requires |rendering| >= MaxLength
    ensures |Line(rendering)| == MaxLength
    ensures Line(rendering)[..MaxLength - 1] == rendering[..MaxLength - 1]
  {
  }

  /** What one `Stored` write leaves, as four slices of the buffer. */
  lemma StoredParts(b: seq<char>, p: nat, len: nat, piece: string)
    requires p + len <= |b| && 0 < len
    ensures var r, k := Stored(b, p, len, piece), Min(|piece|, len - 1);
            && r[..p] == b[..p]
            && r[p..p + k] == piece[..k]
            && r[p + k] == '\0'
            && r[p + k + 1..] == b[p + k + 1..]
  {
  }

  /** Two buffers that agree from index `a` on agree from every later index on. */
  lemma SameTail(x: seq<char>, y: seq<char>, a: nat, c: nat)
    requires a <= c <= |x| == |y| && x[a..] == y[a..]
    ensures x[c..] == y[c..]
  {
    assert x[c..] == x[a..][c - a..];
    assert y[c..] == y[a..][c - a..];
  }

  /** The timestamp and then the header, both fitting, are stored one after the other. */
  lemma TwoPieces(b: seq<char>, stamp: string, header: string)
    requires |b| == MaxLength && |stamp| + |header| < MaxLength
    ensures var b2 := Stored(Stored(b, 0, MaxLength, stamp), |stamp|, MaxLength - |stamp|, header);
            && b2[..|stamp| + |header|] == stamp + header
            && b2[|stamp| + |header| + 1..] == b[|stamp| + |header| + 1..]
  {
    var s, h := |stamp|, |header|;
    var b1 := Stored(b, 0, MaxLength, stamp);
    var b2 := Stored(b1, s, MaxLength - s, header);
    StoredParts(b, 0, MaxLength, stamp);
    assert Min(s, MaxLength - 1) == s && stamp[..s] == stamp;
    assert b1[..s] == stamp;
    StoredParts(b1, s, MaxLength - s, header);
    assert Min(h, MaxLength - s - 1) == h && header[..h] == header;
    assert b2[..s] == stamp && b2[s..s + h] == header;
    assert b2[..s + h] == b2[..s] + b2[s..s + h];
    SameTail(b1, b, s + 1, s + h + 1);
  }

  /**
   * The message, written after a prefix already in place with the room
   * that is left, keeps what fits and is followed by a NUL.
   */
  lemma LastPiece(b: seq<char>, b2: seq<char>, prefix: string, message: string)
    requires |b| == |b2| == MaxLength && |prefix| < MaxLength
    requires b2[..|prefix|] == prefix && b2[|prefix| + 1..] == b[|prefix| + 1..]
    ensures var b3 := Stored(b2, |prefix|, MaxLength - |prefix|, message);
            var n := Kept(|prefix| + |message|);
            && b3[..n] == (prefix + message)[..n]
            && b3[n] == '\0'
            && b3[n + 1..] == b[n + 1..]
  {
    var p := |prefix|;
    var b3 := Stored(b2, p, MaxLength - p, message);
    var k := Min(|message|, MaxLength - p - 1);
    StoredParts(b2, p, MaxLength - p, message);
    assert b3[..p + k] == b3[..p] + b3[p..p + k];
    assert (prefix + message)[..p + k] == prefix + message[..k];
    SameTail(b2, b, p + 1, p + k + 1);
  }

  /** Writing the newline right after the kept characters turns the buffer into the record. */
  lemma Finish(b0: seq<char>, b3: seq<char>, b4: seq<char>, r: string, n: nat)
    requires |b0| == |b3| == MaxLength && n == Kept(|r|)
    requires b3[..n] == r[..n] && b3[n + 1..] == b0[n + 1..]
    requires b4 == b3[n := '\n']
    ensures b4[..n + 1] == Line(r)
    ensures b4[n + 1..] == b0[n + 1..]
    ensures if |r| < MaxLength then n + 1 == |r| + 1 && b4[..n] == r
            else n + 1 == MaxLength && b4[..n] == r[..MaxLength - 1]
  {
    assert b4[..n + 1] == b3[..n] + "\n";
    assert b4[n + 1..] == b3[n + 1..];
    if |r| < MaxLength { LineFits(r); } else { LineTruncated(r); }
  }

  /** The buffer `b` after the three writes of `Format` and its closing newline. */
  function Filled(b: seq<char>, stamp: string, header: string, message: string): (f: seq<char>)
    requires |b| == MaxLength && |stamp| + |header| < MaxLength
    ensures |f| == MaxLength
  {
    var b1 := Stored(b, 0, MaxLength, stamp);
    var b2 := Stored(b1, |stamp|, MaxLength - |stamp|, header);
    var b3 := Stored(b2, |stamp| + |header|, MaxLength - |stamp| - |header|, message);
    b3[Kept(|stamp| + |header| + |message|) := '\n']
  }

  /**
   * The filled buffer starts with the record (the kept part of the
   * rendering and a newline) and is untouched after it; the record is the
   * whole rendering when that fits and its first 2047 characters
   * otherwise.
   */
  lemma FilledRecord(b: seq<char>, stamp: string, header: string, message: string)
    requires |b| == MaxLength && |stamp| + |header| < MaxLength
    ensures var f, r := Filled(b, stamp, header, message), Rendering(stamp, header, message);
            var n := Kept(|r|) + 1;
            && f[..n] == Line(r)
            && f[n..] == b[n..]
            && f[n - 1] == '\n'
            && if |r| < MaxLength then n == |r| + 1 && f[..n - 1] == r
               else n == MaxLength && f[..n - 1] == r[..MaxLength - 1]
  {
    var r := Rendering(stamp, header, message);
    var prefix := stamp + header;
    assert r == prefix + message;
    var b2 := Stored(Stored(b, 0, MaxLength, stamp), |stamp|, MaxLength - |stamp|, header);
    TwoPieces(b, stamp, header);
    assert |prefix| == |stamp| + |header|;
    var b3 := Stored(b2, |prefix|, MaxLength - |prefix|, message);
    LastPiece(b, b2, prefix, message);
    assert |r| == |prefix| + |message| == |stamp| + |header| + |message|;
    var k := Kept(|r|);
    assert b3[..k] == r[..k] && b3[k + 1..] == b[k + 1..];
    var f := Filled(b, stamp, header, message);
    assert f == b3[k := '\n'];
    Finish(b, b3, f, r, k);
  }

  class LogUnit {
    /** Number of valid characters in `buffer`, the final newline included. */
    var length: nat
    const buffer: array<char>

    ghost predicate Valid()
      reads this, buffer
    {
      && buffer.Length == MaxLength
      && length <= MaxLength
      && (length > 0 ==> buffer[length - 1] == '\n')
    }

    /** A new record is empty. */
    constructor ()
      ensures Valid() && fresh(buffer) && length == 0
    {
      length := 0;
      buffer := new char[MaxLength];
    }

    /**
     * Fill the record from the timestamp text `stamp` (the local time of
     * second `us / 1000000`), the level, the source location and the
     * rendered message.  The timestamp and the header must fit in the
     * buffer: past them the source advances its write position beyond the
     * buffer.
     */
    method Format(level: Level, filename: string, line: int, us: int, stamp: string, message: string)
      requires Valid()
      requires |stamp| + |Header(us, level, filename, line)| < MaxLength
      modifies this, buffer
      ensures Valid()
      ensures buffer[..length] == Line(Rendering(stamp, Header(us, level, filename, line), message))
      ensures buffer[length..] == old(buffer[..])[length..]
      ensures 1 <= length <= MaxLength && buffer[length - 1] == '\n'
      ensures var r := Rendering(stamp, Header(us, level, filename, line), message);
              if |r| < MaxLength then length == |r| + 1 && buffer[..length - 1] == r
              else length == MaxLength && buffer[..length - 1] == r[..MaxLength - 1]
    {
      ghost var b0 := buffer[..];
      var header := Header(us, level, filename, line);
      Fill(stamp, header, message);
      FilledRecord(b0, stamp, header, message);
      assert buffer[..length] == buffer[..][..length];
      assert buffer[..length - 1] == buffer[..][..length - 1];
    }

    /** The three writes of `Format`, once the header is rendered, and the closing newline. */
    method Fill(stamp: string, header: string, message: string)
      requires Valid()
      requires |stamp| + |header| < MaxLength
      modifies this, buffer
      ensures Valid()
      ensures length == Kept(|Rendering(stamp, header, message)|) + 1
      ensures buffer[..] == Filled(old(buffer[..]), stamp, header, message)
    {
      ghost var b0 := buffer[..];
      assert |Rendering(stamp, header, message)| == |stamp| + |header| + |message|;
      var p := 0;
      var len := MaxLength;
      var n := Snprintf(buffer, p, len, stamp);
      ghost var b1 := buffer[..];
      assert b1 == Stored(b0, 0, MaxLength, stamp);
      p := p + n;
      length := n;
      len := len - n;
      n := Snprintf(buffer, p, len, header);
      ghost var b2 := buffer[..];
      assert b2 == Stored(b1, |stamp|, MaxLength - |stamp|, header);
      p := p + n;
      length := length + n;
      len := len - n;
      n := Snprintf(buffer, p, len, message);
      ghost var b3 := buffer[..];
      assert b3 == Stored(b2, |stamp| + |header|, MaxLength - |stamp| - |header|, message);
      length := length + n;
      if length >= MaxLength {
        length := MaxLength - 1;
      }
      buffer[length] := '\n';
      assert buffer[..] == b3[length := '\n'];
      length := length + 1;
    }

    /** The number of valid characters, newline included. */
    function Length(): (n: nat)
      reads this, buffer
      requires Valid()
      ensures n <= MaxLength
      ensures n > 0 ==> buffer[n - 1] == '\n'
    {
      length
    }
  }

  /** One piece written with `snprintf` semantics at position `p` with room `len`; returns `|piece|`. */
  method Snprintf(buf: array<char>, p: nat, len: nat, piece: string) returns (n: nat)
    requires p + len <= buf.Length
    modifies buf
    ensures n == |piece|
    ensures buf[..] == Stored(old(buf[..]), p, len, piece)
  {
    n := |piece|;
    if len == 0 {
      return;
    }
    var k := Min(|piece|, len - 1);
    var i := 0;
    while i < k
      invariant 0 <= i <= k
      invariant forall j :: 0 <= j < buf.Length ==> buf[j] == if p <= j < p + i then piece[j - p] else old(buf[j])
    {
      buf[p + i] := piece[i];
      i := i + 1;
    }
    buf[p + k] := '\0';
    forall j | 0 <= j < buf.Length
      ensures buf[..][j] == Stored(old(buf[..]), p, len, piece)[j]
    {
      StoredAt(old(buf[..]), p, len, piece, j);
    }
  }
}
