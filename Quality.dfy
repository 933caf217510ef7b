/** The quality label the player shows for a video of a given size
    (`getQualityFromResolution`): an exact-resolution table looked up by the
    key `<width>x<height>`, then a ladder of height thresholds, then the key
    itself. */
module Quality {
  import opened Optional
  import opened Text

  /** The exact resolutions the player names, keyed `<width>x<height>`. */
  const ResolutionTable: seq<(string, string)> := [
    ("3840x2160", "4K"),
    ("2560x1440", "1440p"),
    ("1920x1080", "1080p HD"),
    ("1280x720", "720p HD"),
    ("854x480", "480p"),
    ("640x360", "360p"),
    ("426x240", "240p")
  ]

  /** The template string `${width}x${height}`. */
  function ResolutionKey(width: nat, height: nat): string {
    NatToString(width) + "x" + NatToString(height)
  }

  /** Property lookup in the table: the label stored under `key`, if any. */
  function Lookup(table: seq<(string, string)>, key: string): (r: Option<string>)
    ensures r.Some? ==> exists i :: 0 <= i < |table| && table[i] == (key, r.value)
    ensures r.None? ==> forall i :: 0 <= i < |table| ==> table[i].0 != key
  {
    if table == [] then None
    else if table[0].0 == key then Some(table[0].1)
    else
      var r := Lookup(table[1..], key);
      assert r.Some? ==> exists i :: 1 <= i < |table| && table[i] == (key, r.value) by {
        if r.Some? {
          var i :| 0 <= i < |table[1..]| && table[1..][i] == (key, r.value);
          assert table[i + 1] == (key, r.value);
        }
      }
      r
  }

  /** The height thresholds tried when the exact size is not in the table. */
  function HeightLadder(height: nat): Option<string> {
    if height >= 2160 then Some("4K")
    else if height >= 1440 then Some("1440p")
    else if height >= 1080 then Some("1080p HD")
    else if height >= 720 then Some("720p HD")
    else if height >= 480 then Some("480p")
    else if height >= 360 then Some("360p")
    else if height >= 240 then Some("240p")
    else None
  }

  function QualityFromResolution(width: nat, height: nat): string {
    match Lookup(ResolutionTable, ResolutionKey(width, height))
    case Some(name) => name
    case None =>
      match HeightLadder(height)
      case Some(name) => name
      case None => ResolutionKey(width, height)
  }

  /** Two sizes have the same key only if they are the same size. */
  lemma ResolutionKeyInjective(w1: nat, h1: nat, w2: nat, h2: nat)
    requires ResolutionKey(w1, h1) == ResolutionKey(w2, h2)
    ensures w1 == w2 && h1 == h2
  {
    var a1, b1 := NatToString(w1), NatToString(h1);
    var a2, b2 := NatToString(w2), NatToString(h2);
    var k := ResolutionKey(w1, h1);
    assert |a1| == |a2| by {
      assert forall i :: 0 <= i < |a1| ==> IsDigit(k[i]);
      assert forall i :: 0 <= i < |a2| ==> IsDigit(k[i]);
      assert !IsDigit(k[|a1|]) && !IsDigit(k[|a2|]);
    }
    assert a1 == k[..|a1|] == a2;
    assert b1 == k[|a1| + 1..] == b2;
    NatToStringInjective(w1, w2);
    NatToStringInjective(h1, h2);
  }

  /** Each table key is the key of the size it names. */
  lemma UltraHdKey()
    ensures ResolutionTable[0].0 == ResolutionKey(3840, 2160)
  {
    assert NatToString(3) == "3";
    assert NatToString(38) == "38";
    assert NatToString(384) == "384";
    assert NatToString(3840) == "3840";
    assert NatToString(2) == "2";
    assert NatToString(21) == "21";
    assert NatToString(216) == "216";
    assert NatToString(2160) == "2160";
  }

  lemma QuadHdKey()
    ensures ResolutionTable[1].0 == ResolutionKey(2560, 1440)
  {
    assert NatToString(2) == "2";
    assert NatToString(25) == "25";
    assert NatToString(256) == "256";
    assert NatToString(2560) == "2560";
    assert NatToString(1) == "1";
    assert NatToString(14) == "14";
    assert NatToString(144) == "144";
    assert NatToString(1440) == "1440";
  }

  lemma FullHdKey()
    ensures ResolutionTable[2].0 == ResolutionKey(1920, 1080)
  {
    assert NatToString(1) == "1";
    assert NatToString(19) == "19";
    assert NatToString(192) == "192";
    assert NatToString(1920) == "1920";
    assert NatToString(1) == "1";
    assert NatToString(10) == "10";
    assert NatToString(108) == "108";
    assert NatToString(1080) == "1080";
  }

  lemma HdKey()
    ensures ResolutionTable[3].0 == ResolutionKey(1280, 720)
  {
    assert NatToString(1) == "1";
    assert NatToString(12) == "12";
    assert NatToString(128) == "128";
    assert NatToString(1280) == "1280";
    assert NatToString(7) == "7";
    assert NatToString(72) == "72";
    assert NatToString(720) == "720";
  }

  lemma WideSdKey()
    ensures ResolutionTable[4].0 == ResolutionKey(854, 480)
  {
    assert NatToString(8) == "8";
    assert NatToString(85) == "85";
    assert NatToString(854) == "854";
    assert NatToString(4) == "4";
    assert NatToString(48) == "48";
    assert NatToString(480) == "480";
  }

  lemma NinthHdKey()
    ensures ResolutionTable[5].0 == ResolutionKey(640, 360)
  {
    assert NatToString(6) == "6";
    assert NatToString(64) == "64";
    assert NatToString(640) == "640";
    assert NatToString(3) == "3";
    assert NatToString(36) == "36";
    assert NatToString(360) == "360";
  }

  lemma LowKey()
    ensures ResolutionTable[6].0 == ResolutionKey(426, 240)
  {
    assert NatToString(4) == "4";
    assert NatToString(42) == "42";
    assert NatToString(426) == "426";
    assert NatToString(2) == "2";
    assert NatToString(24) == "24";
    assert NatToString(240) == "240";
  }

  /** Every exact-resolution entry agrees with the height ladder: a size
      found in the table has a height of at least 240, and the table gives
      the label the ladder gives for that height. */
  lemma TableAgreesWithLadder(width: nat, height: nat, i: nat)
    requires i < |ResolutionTable| && ResolutionTable[i].0 == ResolutionKey(width, height)
    ensures height >= 240
    ensures HeightLadder(height) == Some(ResolutionTable[i].1)
  {
    if i == 0 { UltraHdKey(); ResolutionKeyInjective(width, height, 3840, 2160); }
    else if i == 1 { QuadHdKey(); ResolutionKeyInjective(width, height, 2560, 1440); }
    else if i == 2 { FullHdKey(); ResolutionKeyInjective(width, height, 1920, 1080); }
    else if i == 3 { HdKey(); ResolutionKeyInjective(width, height, 1280, 720); }
    else if i == 4 { WideSdKey(); ResolutionKeyInjective(width, height, 854, 480); }
    else if i == 5 { NinthHdKey(); ResolutionKeyInjective(width, height, 640, 360); }
    else { LowKey(); ResolutionKeyInjective(width, height, 426, 240); }
  }

  /** From a height of 240 up the label is the ladder's label for the height
      alone; below 240 it is the literal `<width>x<height>`. */
  lemma QualityByHeight(width: nat, height: nat)
    ensures height >= 240 ==>
      HeightLadder(height).Some? && QualityFromResolution(width, height) == HeightLadder(height).value
    ensures height < 240 ==> QualityFromResolution(width, height) == ResolutionKey(width, height)
  {
    var found := Lookup(ResolutionTable, ResolutionKey(width, height));
    if found.Some? {
      var i :| 0 <= i < |ResolutionTable| && ResolutionTable[i] == (ResolutionKey(width, height), found.value);
      TableAgreesWithLadder(width, height, i);
    }
  }

  /** Two videos of the same height of at least 240 get the same label,
      whatever their widths. */
  lemma QualityIgnoresWidth(w1: nat, w2: nat, height: nat)
    requires height >= 240
    ensures QualityFromResolution(w1, height) == QualityFromResolution(w2, height)
  {
    QualityByHeight(w1, height);
    QualityByHeight(w2, height);
  }
}
