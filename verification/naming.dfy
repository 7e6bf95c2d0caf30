/**
 The name a photo is renamed to: its taken-time rendered with the Go layout
 "2006-01-02_15.04.05", followed by its lower-cased extension, in the
 directory the photo already lives in.
 */
module Naming {
  import opened Wrappers
  import opened Paths
  import opened Timestamps

  /** newImageNameFormat: Go's reference time written the way new names are written. */
  const NewImageNameFormat: string := "2006-01-02_15.04.05"

  predicate IsDigit(c: char) {
    '0' <= c <= '9'
  }

  function Digit(n: int): (c: char)
    requires 0 <= n < 10
    ensures IsDigit(c)
  {
    ('0' as int + n) as char
  }

  function DigitValue(c: char): int {
    c as int - '0' as int
  }

  /** Two-digit zero-padded decimal, as the layout elements "01", "02", "15", "04", "05" write. */
  function Pad2(n: int): (s: string)
    requires 0 <= n < 100
    ensures |s| == 2 && IsDigit(s[0]) && IsDigit(s[1])
  {
    [Digit(n / 10), Digit(n % 10)]
  }

  /** Four-digit zero-padded decimal, as the layout element "2006" writes years 0..9999. */
  function Pad4(n: int): (s: string)
    requires 0 <= n < 10000
    ensures |s| == 4 && forall i :: 0 <= i < 4 ==> IsDigit(s[i])
  {
    Pad2(n / 100) + Pad2(n % 100)
  }

  function Number2(s: string): int
    requires |s| == 2
  {
    DigitValue(s[0]) * 10 + DigitValue(s[1])
  }

  function Number4(s: string): int
    requires |s| == 4
  {
    Number2(s[..2]) * 100 + Number2(s[2..])
  }

  lemma Number2OfPad2(n: int)
    requires 0 <= n < 100
    ensures Number2(Pad2(n)) == n
  {
  }

  lemma Number4OfPad4(n: int)
    requires 0 <= n < 10000
    ensures Number4(Pad4(n)) == n
  {
    var s := Pad4(n);
    assert s[..2] == Pad2(n / 100);
    assert s[2..] == Pad2(n % 100);
    Number2OfPad2(n / 100);
    Number2OfPad2(n % 100);
  }

  /** A string laid out like NewImageNameFormat: a digit wherever it has one, its separator elsewhere. */
  predicate HasNameLayout(s: string) {
    && |s| == |NewImageNameFormat|
    && forall i :: 0 <= i < |s| ==>
         if IsDigit(NewImageNameFormat[i]) then IsDigit(s[i]) else s[i] == NewImageNameFormat[i]
  }

  /** imageTime.Format(newImageNameFormat). */
  function FormatName(t: Timestamp): (s: string)
    ensures HasNameLayout(s)
  {
    var s := Pad4(t.year) + "-" + Pad2(t.month) + "-" + Pad2(t.day) + "_"
      + Pad2(t.hour) + "." + Pad2(t.minute) + "." + Pad2(t.second);
    assert forall i :: 0 <= i < |s| ==>
      if IsDigit(NewImageNameFormat[i]) then IsDigit(s[i]) else s[i] == NewImageNameFormat[i];
    s
  }

  /** Reading a formatted name back: the inverse of FormatName. */
  function ParseName(s: string): (r: Option<Timestamp>)
    ensures r.Some? ==> HasNameLayout(s)
  {
    if !HasNameLayout(s) then None
    else
      var m := Moment(Number4(s[..4]), Number2(s[5..7]), Number2(s[8..10]),
                      Number2(s[11..13]), Number2(s[14..16]), Number2(s[17..19]));
      if Valid(m) then Some(m) else None
  }

  /** Formatting loses nothing: the name can be read back to the timestamp. */
  lemma ParseFormatRoundTrip(t: Timestamp)
    ensures ParseName(FormatName(t)) == Some(t)
  {
    var s := FormatName(t);
    assert s[..4] == Pad4(t.year);
    assert s[5..7] == Pad2(t.month);
    assert s[8..10] == Pad2(t.day);
    assert s[11..13] == Pad2(t.hour);
    assert s[14..16] == Pad2(t.minute);
    assert s[17..19] == Pad2(t.second);
    Number4OfPad4(t.year);
    Number2OfPad2(t.month);
    Number2OfPad2(t.day);
    Number2OfPad2(t.hour);
    Number2OfPad2(t.minute);
    Number2OfPad2(t.second);
  }

  /** Distinct timestamps get distinct names. */
  lemma FormatNameInjective(t: Timestamp, u: Timestamp)
    ensures FormatName(t) == FormatName(u) <==> t == u
  {
    if FormatName(t) == FormatName(u) {
      ParseFormatRoundTrip(t);
      ParseFormatRoundTrip(u);
    }
  }

  /** The layout string is Go's reference time, Jan 2 15:04:05 2006, in that layout. */
  lemma LayoutIsReferenceTime()
    ensures FormatName(Moment(2006, 1, 2, 15, 4, 5)) == NewImageNameFormat
  {
  }

  /** The base name a photo taken at t is renamed to. */
  function NewImageFileName(p: Path, t: Timestamp): (name: string)
    ensures IsElement(name)
  {
    var f := FormatName(t);
    var e := LowerCaseExt(p);
    assert forall i :: 0 <= i < |f| ==> f[i] != '/' by {
      forall i | 0 <= i < |f| ensures f[i] != '/' {
        assert IsDigit(NewImageNameFormat[i]) || NewImageNameFormat[i] != '/';
      }
    }
    assert |f + e| >= 19;
    f + e
  }

  /** getNewImagePath: the formatted taken-time plus the lower-cased extension, in the same directory. */
  function NewImagePath(p: AbsPath, t: Timestamp): (r: FilePath)
    ensures Dir(r) == Dir(p)
    ensures Base(r) == FormatName(t) + LowerCaseExt(p)
  {
    Join(Dir(p), NewImageFileName(p, t))
  }

  lemma ExtOfFormatName(t: Timestamp)
    ensures Ext(FormatName(t)) == "." + Pad2(t.second)
  {
    var f := FormatName(t);
    assert f == f[..16] + ("." + Pad2(t.second));
    ExtOfExtension(f[..16], "." + Pad2(t.second));
  }

  /** The extension of a renamed photo: its own lower-cased one, or ".ss" taken from the seconds when it had none. */
  lemma ExtOfNewImagePath(p: AbsPath, t: Timestamp)
    ensures Ext(p) != "" ==> Ext(NewImagePath(p, t)) == LowerCaseExt(p)
    ensures Ext(p) == "" ==> Ext(NewImagePath(p, t)) == "." + Pad2(t.second)
  {
    var d := Dir(p);
    var name := NewImageFileName(p, t);
    var prefix := if d == "/" then "" else d;
    assert NewImagePath(p, t) == prefix + "/" + name;
    ExtOfLastElement(prefix, name);
    if Ext(p) != "" {
      ExtOfExtension(FormatName(t), LowerCaseExt(p));
    } else {
      assert name == FormatName(t);
      ExtOfFormatName(t);
    }
  }

  /** Renaming an already renamed photo (same taken-time) yields the same path: the "old and new path match" skip. */
  lemma NamingIdempotent(p: AbsPath, t: Timestamp)
    requires Ext(p) != ""
    ensures NewImagePath(NewImagePath(p, t), t) == NewImagePath(p, t)
  {
    var r := NewImagePath(p, t);
    ExtOfNewImagePath(p, t);
    LowerIdempotent(Ext(p));
    assert LowerCaseExt(r) == LowerCaseExt(p);
  }

  /** Without an extension there is no fixed point: each renaming appends another ".ss". */
  lemma NoFixedPointWithoutExtension(p: AbsPath, t: Timestamp)
    requires Ext(p) == ""
    ensures NewImagePath(NewImagePath(p, t), t) != NewImagePath(p, t)
  {
    var r := NewImagePath(p, t);
    ExtOfNewImagePath(p, t);
    assert |LowerCaseExt(r)| == 3;
    assert |Base(NewImagePath(r, t))| == 22 != |Base(r)|;
  }

  /** Two photos get the same new path exactly when they share a directory, a lower-cased extension and a taken-time. */
  lemma NewImagePathCollision(p: AbsPath, t: Timestamp, q: AbsPath, u: Timestamp)
    ensures NewImagePath(p, t) == NewImagePath(q, u) <==>
      Dir(p) == Dir(q) && LowerCaseExt(p) == LowerCaseExt(q) && t == u
  {
    if NewImagePath(p, t) == NewImagePath(q, u) {
      var bp, bq := FormatName(t) + LowerCaseExt(p), FormatName(u) + LowerCaseExt(q);
      assert bp == bq;
      assert bp[..19] == FormatName(t);
      assert bq[..19] == FormatName(u);
      FormatNameInjective(t, u);
      assert LowerCaseExt(p) == bp[19..];
      assert LowerCaseExt(q) == bq[19..];
    }
  }
}
