/**
  Where the simulation saves its pictures. Every frame is a PNG file in the run's
  directory, named after the day it shows; the names collected during a run are the
  frames of the final animation, in the order they were saved.
 */
module Frames {

  /** The decimal digit character for `d`. */
  function DigitChar(d: nat): (c: char)
    requires d < 10
    ensures '0' <= c <= '9'
    ensures c as int - '0' as int == d
  {
    ('0' as int + d) as char
  }

  predicate IsDigit(c: char) {
    '0' <= c <= '9'
  }

  /** The decimal numeral of `n`, as Python's `str` writes a non-negative int: no sign, no leading zero. */
  function NatToString(n: nat): string
    decreases n
  {
    if n < 10 then [DigitChar(n)] else NatToString(n / 10) + [DigitChar(n % 10)]
  }

  /** A numeral is a non-empty string of digits without a leading zero. */
  lemma {:induction false} NatToStringDigits(n: nat)
    ensures |NatToString(n)| >= 1
    ensures forall i :: 0 <= i < |NatToString(n)| ==> IsDigit(NatToString(n)[i])
    ensures |NatToString(n)| > 1 ==> NatToString(n)[0] != '0'
    decreases n
  {
    if n >= 10 {
      NatToStringDigits(n / 10);
    }
  }

  /** The value of a digit character (0 for any other character). */
  function DigitValue(c: char): nat {
    if IsDigit(c) then c as int - '0' as int else 0
  }

  /** The number a string of decimal digits denotes. */
  function ParseDecimal(s: string): nat {
    if s == [] then 0 else ParseDecimal(s[..|s| - 1]) * 10 + DigitValue(s[|s| - 1])
  }

  /** Reading a numeral back gives the number: different days get different numerals. */
  lemma {:induction false} ParseNatToString(n: nat)
    ensures ParseDecimal(NatToString(n)) == n
    decreases n
  {
    var s := NatToString(n);
    if n >= 10 {
      ParseNatToString(n / 10);
      assert s[..|s| - 1] == NatToString(n / 10);
    }
  }

  lemma NatToStringInjective(m: nat, n: nat)
    requires NatToString(m) == NatToString(n)
    ensures m == n
  {
    ParseNatToString(m);
    ParseNatToString(n);
  }

  /** The location `zombie_spread` passes for the picture of day `day`, before ".png" is added. */
  function FrameStem(dirloc: string, day: nat): string {
    dirloc + "/zombies-" + NatToString(day)
  }

  /** The file name of the picture of day `day`; `edges` marks the second picture of a day of a dynamic run. */
  function FrameLoc(dirloc: string, day: nat, edges: bool): string {
    (if edges then FrameStem(dirloc, day) + "-edges" else FrameStem(dirloc, day)) + ".png"
  }

  /** The file name is that of the second picture of a day (taken after the edges were updated). */
  predicate ShowsEdges(f: string) {
    |f| >= 10 && f[|f| - 10..] == "-edges.png"
  }

  /** The edges marker can be read back from a frame's name: a numeral never ends in "-edges". */
  lemma FrameLocShowsEdges(dirloc: string, day: nat, edges: bool)
    ensures ShowsEdges(FrameLoc(dirloc, day, edges)) == edges
  {
    var f := FrameLoc(dirloc, day, edges);
    var s := NatToString(day);
    var stem := FrameStem(dirloc, day);
    NatToStringDigits(day);
    assert stem == dirloc + "/zombies-" + s;
    if edges {
      assert f == stem + ("-edges" + ".png");
      assert f[|f| - 10..] == "-edges" + ".png";
    } else if |f| >= 10 {
      assert f == stem + ".png";
      assert f[|f| - 5] == s[|s| - 1];
      assert f[|f| - 10..][5] != "-edges.png"[5];
    }
  }

  /** Two frames of a directory have the same file name only if they show the same picture of the same day. */
  lemma FrameLocInjective(dirloc: string, d1: nat, e1: bool, d2: nat, e2: bool)
    requires FrameLoc(dirloc, d1, e1) == FrameLoc(dirloc, d2, e2)
    ensures d1 == d2 && e1 == e2
  {
    FrameLocShowsEdges(dirloc, d1, e1);
    FrameLocShowsEdges(dirloc, d2, e2);
    var prefix := dirloc + "/zombies-";
    var rest := if e1 then "-edges" + ".png" else ".png";
    var s1, s2 := NatToString(d1), NatToString(d2);
    var f := FrameLoc(dirloc, d1, e1);
    assert f == prefix + s1 + rest;
    assert f == prefix + s2 + rest;
    assert s1 == f[|prefix|..|f| - |rest|];
    assert s2 == f[|prefix|..|f| - |rest|];
    NatToStringInjective(d1, d2);
  }

  /** The number of frames `days` days leave: two per day on a dynamic run (before and after edge removal), one otherwise. */
  function FrameCount(days: nat, update: bool): nat {
    if update then 2 * days else days
  }

  /** The frames saved on day `day`. */
  function DayFrames(dirloc: string, day: nat, update: bool): seq<string> {
    [FrameLoc(dirloc, day, false)] + if update then [FrameLoc(dirloc, day, true)] else []
  }

  /** The frames saved during the first `days` days, in the order they were saved. */
  function SavedFrames(dirloc: string, days: nat, update: bool): seq<string>
    decreases days
  {
    if days == 0 then [] else SavedFrames(dirloc, days - 1, update) + DayFrames(dirloc, days - 1, update)
  }

  /** Each day adds its pictures. */
  lemma {:induction false} FramesLength(dirloc: string, days: nat, update: bool)
    ensures |SavedFrames(dirloc, days, update)| == FrameCount(days, update)
    decreases days
  {
    if days > 0 {
      FramesLength(dirloc, days - 1, update);
    }
  }

  /** The i-th saved frame is the picture of day i (of day i / 2, its second one when i is odd, on a dynamic run). */
  lemma {:induction false} FrameAt(dirloc: string, days: nat, update: bool, i: nat)
    requires i < |SavedFrames(dirloc, days, update)|
    ensures SavedFrames(dirloc, days, update)[i]
            == if update then FrameLoc(dirloc, i / 2, i % 2 == 1) else FrameLoc(dirloc, i, false)
    decreases days
  {
    FramesLength(dirloc, days - 1, update);
    if i < FrameCount(days - 1, update) {
      FrameAt(dirloc, days - 1, update, i);
    } else if update {
      assert i / 2 == days - 1;
    }
  }

  /** No frame overwrites another: the saved file names are pairwise different. */
  lemma FramesDistinct(dirloc: string, days: nat, update: bool, i: nat, j: nat)
    requires i < j < |SavedFrames(dirloc, days, update)|
    ensures SavedFrames(dirloc, days, update)[i] != SavedFrames(dirloc, days, update)[j]
  {
    FrameAt(dirloc, days, update, i);
    FrameAt(dirloc, days, update, j);
    if SavedFrames(dirloc, days, update)[i] == SavedFrames(dirloc, days, update)[j] {
      if update {
        FrameLocInjective(dirloc, i / 2, i % 2 == 1, j / 2, j % 2 == 1);
      } else {
        FrameLocInjective(dirloc, i, false, j, false);
      }
      assert false;
    }
  }

  /**
    The list of saved images of a run (`imglist`): `draw_and_save` appends the file it
    writes when images are saved, and leaves the list alone otherwise.
   */
  class ImageList {
    var paths: seq<string>

    constructor ()
      ensures paths == []
    {
      paths := [];
    }

    /** Draws the city; saves it as `loc` + ".png" and records that file when `save` holds. Showing is display only. */
    method DrawAndSave(loc: string, save: bool, show: bool)
      requires loc != ""
      modifies this
      ensures paths == old(paths) + if save then [loc + ".png"] else []
    {
      if save {
        paths := paths + [loc + ".png"];
      }
    }
  }

  /** The GIF `animate` writes: its location and its frames, the first image followed by the appended rest. */
  datatype Animation = Animation(location: string, frames: seq<string>)
}
