/** The command encoder: the strings the bridge publishes on the request topic.
    Every command is six bytes written as twelve lower-case hex digits: the sync
    bytes 55 01, a command byte (81 power, 84 target humidity, 85 fan speed), two
    argument bytes, and a check byte that is the XOR of the five before it. The
    source writes power and fan codes as literals and computes humidity codes from
    a table (index.js:85-113); the lemmas below show that all of them are frames
    of this one shape. */
module Encoder {
  import opened Wrappers
  import opened Hex

  /** The humidity bounds the accessory clamps a request to (index.js:52-53). */
  const MinHumidity: int := 30
  const MaxHumidity: int := 90

  /** A row of the humidity table: humidities `lo..hi` map to the check byte
      `base + (h - lo)`. */
  datatype Band = Band(lo: int, hi: int, base: int) {
    predicate Contains(h: int) {
      lo <= h <= hi
    }
  }

  /** The rows consulted before the catch-all (index.js:100). */
  const LeadingBands: seq<Band> := [Band(32, 47, 0xf0), Band(64, 79, 0x90), Band(80, 90, 0x80)]

  /** The catch-all row spanning the whole clamped range (index.js:101). */
  const Fallback: Band := Band(MinHumidity, MaxHumidity, 0xce)

  /** The table in the order the loop at index.js:103-110 reads it. */
  const Bands: seq<Band> := LeadingBands + [Fallback]

  /** Clamping of the requested humidity (index.js:89-93). */
  function Clamp(humidity: int): (h: int)
    ensures MinHumidity <= h <= MaxHumidity
    ensures MinHumidity <= humidity <= MaxHumidity ==> h == humidity
  {
    if humidity < MinHumidity then MinHumidity
    else if humidity > MaxHumidity then MaxHumidity
    else humidity
  }

  /** The index of the first row containing `h`, as the `for ... break` loop finds it. */
  function FirstBand(bands: seq<Band>, h: int): (r: Option<nat>)
    ensures r.Some? ==> r.value < |bands| && bands[r.value].Contains(h)
    ensures r.Some? ==> forall j :: 0 <= j < r.value ==> !bands[j].Contains(h)
    ensures r.None? ==> forall j :: 0 <= j < |bands| ==> !bands[j].Contains(h)
    decreases |bands|
  {
    if bands == [] then None
    else if bands[0].Contains(h) then Some(0)
    else
      match FirstBand(bands[1..], h)
      case None => None
      case Some(i) => Some(i + 1)
  }

  /** The value of `start + diff` after the loop at index.js:103-110, for a
      clamped humidity. When no row matches, `start` is the last row's base and
      `diff` is still `h - MinHumidity`. */
  function FinalByte(h: int): (b: int)
    requires MinHumidity <= h <= MaxHumidity
    ensures 0x80 <= b <= 0xff
  {
    BandOfHumidity(h);
    var i := FirstBand(Bands, h);
    if i.Some? then Bands[i.value].base + (h - Bands[i.value].lo)
    else Fallback.base + (h - MinHumidity)
  }

  /** The first-match search stops at `k` when `k` is the first row containing `h`. */
  lemma FirstBandAt(bands: seq<Band>, h: int, k: nat)
    requires k < |bands| && bands[k].Contains(h)
    requires forall j :: 0 <= j < k ==> !bands[j].Contains(h)
    ensures FirstBand(bands, h) == Some(k)
  {
  }

  /** Which row of the table a clamped humidity stops at: 32-47, 64-79 and 80-90
      at their own rows, 30-31 and 48-63 at the catch-all. */
  lemma BandOfHumidity(h: int)
    requires MinHumidity <= h <= MaxHumidity
    ensures FirstBand(Bands, h) ==
      if 32 <= h <= 47 then Some(0)
      else if 64 <= h <= 79 then Some(1)
      else if 80 <= h <= 90 then Some(2)
      else Some(3)
  {
    assert Bands[0] == Band(32, 47, 0xf0) && Bands[1] == Band(64, 79, 0x90);
    assert Bands[2] == Band(80, 90, 0x80) && Bands[3] == Fallback;
    if 32 <= h <= 47 {
      FirstBandAt(Bands, h, 0);
    } else if 64 <= h <= 79 {
      FirstBandAt(Bands, h, 1);
    } else if 80 <= h <= 90 {
      FirstBandAt(Bands, h, 2);
    } else {
      FirstBandAt(Bands, h, 3);
    }
  }

  /** The command for a target humidity (index.js:85-113), with the bounds of
      index.js:52-53. */
  function HumidityCode(humidity: int): string {
    var h := Clamp(humidity);
    "550184" + ToHex(0x1e + (h - MinHumidity)) + "00" + ToHex(FinalByte(h))
  }

  /** `getHumidityCode` step by step: clamp, write the prefix and the humidity
      byte, then scan the table until the first row that contains the humidity. */
  method GetHumidityCode(humidity: int) returns (code: string)
    ensures code == HumidityCode(humidity)
  {
    var h := humidity;
    if h < MinHumidity {
      h := MinHumidity;
    } else if h > MaxHumidity {
      h := MaxHumidity;
    }
    var diff := h - MinHumidity;
    code := "550184";
    code := code + ToHex(0x1e + diff);
    code := code + "00";
    var start := 0;
    var i := 0;
    while i < |Bands|
      invariant 0 <= i <= |Bands|
      invariant diff == h - MinHumidity
      invariant forall j :: 0 <= j < i ==> !Bands[j].Contains(h)
      invariant 0 < i ==> start == Bands[i - 1].base
    {
      start := Bands[i].base;
      if Bands[i].Contains(h) {
        diff := h - Bands[i].lo;
        FirstBandAt(Bands, h, i);
        break;
      }
      i := i + 1;
    }
    code := code + ToHex(start + diff);
  }

  /** The power command (index.js:180). */
  function PowerCode(on: bool): string {
    if on then "5501810100d4" else "5501810000d5"
  }

  /** The fan-speed command (index.js:234-245); any other speed leaves the code
      `undefined`. */
  function FanCode(speed: int): Option<string> {
    if speed == 1 then Some("5501850100d0")
    else if speed == 2 then Some("5501850200d3")
    else if speed == 3 then Some("5501850300d2")
    else None
  }

  /** The check byte: bitwise XOR of the five bytes before it. */
  function Check(a: Byte, b: Byte, c: Byte, d: Byte, e: Byte): Byte {
    ((a as bv8) ^ (b as bv8) ^ (c as bv8) ^ (d as bv8) ^ (e as bv8)) as int
  }

  /** A command frame: sync bytes, command, two arguments, check byte. */
  function Frame(command: Byte, arg: Byte, pad: Byte): (f: seq<Byte>)
    ensures |f| == 6 && f[0] == 0x55 && f[1] == 0x01 && f[2] == command
    ensures f[3] == arg && f[4] == pad && f[5] == Check(f[0], f[1], f[2], f[3], f[4])
  {
    [0x55, 0x01, command, arg, pad, Check(0x55, 0x01, command, arg, pad)]
  }

  /** A well-formed command frame as the literal codes are built: twelve
      lower-case hex digits, sync bytes `55 01`, and a sixth byte that is the
      XOR of the first five. */
  predicate ValidCommand(s: string) {
    match DecodeHex(s)
    case None => false
    case Some(bs) => |bs| == 6 && bs[0] == 0x55 && bs[1] == 0x01 && bs[5] == Check(bs[0], bs[1], bs[2], bs[3], bs[4])
  }

  /** Six bytes written out: each byte contributes its own two digits. */
  lemma EncodeSix(f: seq<Byte>)
    requires |f| == 6
    ensures EncodeHex(f)
      == Hex2(f[0]) + Hex2(f[1]) + Hex2(f[2]) + Hex2(f[3]) + Hex2(f[4]) + Hex2(f[5])
  {
    assert EncodeHex(f[5..]) == Hex2(f[5]);
    assert EncodeHex(f[4..]) == Hex2(f[4]) + EncodeHex(f[5..]);
    assert EncodeHex(f[3..]) == Hex2(f[3]) + EncodeHex(f[4..]);
    assert EncodeHex(f[2..]) == Hex2(f[2]) + EncodeHex(f[3..]);
    assert EncodeHex(f[1..]) == Hex2(f[1]) + EncodeHex(f[2..]);
  }

  /** A frame written out: the sync bytes as `5501`, then the two digits of
      each remaining byte. */
  lemma EncodeFrame(command: Byte, arg: Byte, pad: Byte)
    ensures EncodeHex(Frame(command, arg, pad))
      == "5501" + Hex2(command) + Hex2(arg) + Hex2(pad)
         + Hex2(Check(0x55, 0x01, command, arg, pad))
  {
    var f := Frame(command, arg, pad);
    EncodeSix(f);
    var h0, h1, h2, h3, h4, h5 := Hex2(f[0]), Hex2(f[1]), Hex2(f[2]), Hex2(f[3]), Hex2(f[4]), Hex2(f[5]);
    assert h0 + h1 == "5501";
    assert EncodeHex(f) == h0 + h1 + h2 + h3 + h4 + h5;
  }

  /** A literal command is the text of a frame once its digits are spelled out. */
  lemma FrameText(command: Byte, arg: Byte, pad: Byte, text: string)
    requires "5501" + Hex2(command) + Hex2(arg) + Hex2(pad)
      + Hex2(Check(0x55, 0x01, command, arg, pad)) == text
    ensures EncodeHex(Frame(command, arg, pad)) == text
  {
    EncodeFrame(command, arg, pad);
  }

  /** The valid commands are exactly the encoded frames. */
  lemma ValidCommandIsFrame(s: string)
    ensures ValidCommand(s) <==> exists c, a, p :: s == EncodeHex(Frame(c, a, p))
  {
    if ValidCommand(s) {
      var bs := DecodeHex(s).value;
      EncodeDecode(s);
      assert bs == Frame(bs[2], bs[3], bs[4]);
    }
    if exists c, a, p :: s == EncodeHex(Frame(c, a, p)) {
      var c, a, p :| s == EncodeHex(Frame(c, a, p));
      DecodeEncode(Frame(c, a, p));
    }
  }

  /** Each row of the table lands the check byte on the XOR of the frame
      (index.js:96-111): for every clamped humidity `h`, `start + diff` is
      `0x55 ^ 0x01 ^ 0x84 ^ h ^ 0x00`, which is `0xd0 ^ h`. */
  lemma FinalByteIsChecksum(h: int)
    requires MinHumidity <= h <= MaxHumidity
    ensures FinalByte(h) == Check(0x55, 0x01, 0x84, h, 0x00)
  {
    FinalByteTable(h);
    if 32 <= h <= 47 {
      CheckRow32(h);
    } else if 64 <= h <= 79 {
      CheckRow64(h);
    } else if 80 <= h <= 90 {
      CheckRow80(h);
    } else if h <= 31 {
      CheckFallbackLow(h);
    } else {
      CheckFallbackMid(h);
    }
  }

  /** Within one row the check byte of a humidity frame is an offset from the
      row's base: one lemma per row of the table. */
  lemma CheckRow32(h: int)
    requires 32 <= h <= 47
    ensures Check(0x55, 0x01, 0x84, h, 0x00) == 0xf0 + (h - 32)
  {
  }

  lemma CheckRow64(h: int)
    requires 64 <= h <= 79
    ensures Check(0x55, 0x01, 0x84, h, 0x00) == 0x90 + (h - 64)
  {
  }

  lemma CheckRow80(h: int)
    requires 80 <= h <= 90
    ensures Check(0x55, 0x01, 0x84, h, 0x00) == 0x80 + (h - 80)
  {
  }

  lemma CheckFallbackLow(h: int)
    requires 30 <= h <= 31
    ensures Check(0x55, 0x01, 0x84, h, 0x00) == 0xce + (h - 30)
  {
  }

  lemma CheckFallbackMid(h: int)
    requires 48 <= h <= 63
    ensures Check(0x55, 0x01, 0x84, h, 0x00) == 0xce + (h - 30)
  {
  }

  /** The table read as a piecewise function (index.js:100-111): rows 32-47,
      64-79 and 80-90 offset from their own start, and 30-31 and 48-63 fall
      through to the catch-all. */
  lemma FinalByteTable(h: int)
    requires MinHumidity <= h <= MaxHumidity
    ensures 32 <= h <= 47 ==> FinalByte(h) == 0xf0 + (h - 32)
    ensures 64 <= h <= 79 ==> FinalByte(h) == 0x90 + (h - 64)
    ensures 80 <= h <= 90 ==> FinalByte(h) == 0x80 + (h - 80)
    ensures h < 32 || 48 <= h <= 63 ==> FinalByte(h) == 0xce + (h - 30)
  {
    BandOfHumidity(h);
    assert Bands[0] == Band(32, 47, 0xf0) && Bands[1] == Band(64, 79, 0x90);
    assert Bands[2] == Band(80, 90, 0x80) && Bands[3] == Fallback;
  }

  /** Every humidity command is the frame for command 0x84 carrying the clamped
      humidity: the first pair after the prefix is `0x1e + (h - 30) == h`, and
      the last pair is the check byte. */
  lemma HumidityCodeIsFrame(humidity: int)
    ensures HumidityCode(humidity) == EncodeHex(Frame(0x84, Clamp(humidity), 0x00))
  {
    var h := Clamp(humidity);
    var last := FinalByte(h);
    assert HumidityCode(humidity) == "550184" + ToHex(h) + "00" + ToHex(last);
    ToHexOfByte(h);
    ToHexOfByte(last);
    FinalByteIsChecksum(h);
    EncodeFrame(0x84, h, 0x00);
    assert "5501" + Hex2(0x84) == "550184" && Hex2(0x00) == "00";
  }

  /** The shape of a humidity command (index.js:95-98, 111): twelve lower-case
      hex digits, the prefix 550184, the clamped humidity as the fourth byte,
      00 as the fifth and the XOR check byte as the sixth. */
  lemma HumidityCodeShape(humidity: int)
    ensures var code := HumidityCode(humidity);
      && |code| == 12 && IsHexString(code)
      && code[..6] == "550184"
      && code[6..8] == Hex2(Clamp(humidity))
      && code[8..10] == "00"
      && code[10..] == Hex2(Check(0x55, 0x01, 0x84, Clamp(humidity), 0x00))
  {
    var hb := Clamp(humidity);
    HumidityCodeText(humidity);
    HumidityCodeIsFrame(humidity);
    Fields("550184", Hex2(hb), "00", Hex2(Check(0x55, 0x01, 0x84, hb, 0x00)));
  }

  /** A humidity command spelled out: the prefix, the clamped humidity, `00`
      and the check byte, each as two digits. */
  lemma HumidityCodeText(humidity: int)
    ensures HumidityCode(humidity)
      == "550184" + Hex2(Clamp(humidity)) + "00" + Hex2(Check(0x55, 0x01, 0x84, Clamp(humidity), 0x00))
  {
    var hb := Clamp(humidity);
    var x := Hex2(Check(0x55, 0x01, 0x84, hb, 0x00));
    var f := EncodeHex(Frame(0x84, hb, 0x00));
    assert HumidityCode(humidity) == f by {
      HumidityCodeIsFrame(humidity);
    }
    assert f == "5501" + Hex2(0x84) + Hex2(hb) + Hex2(0x00) + x by {
      EncodeFrame(0x84, hb, 0x00);
    }
    assert "5501" + Hex2(0x84) == "550184" && Hex2(0x00) == "00";
  }

  /** The four fields of a humidity command sit at fixed offsets. */
  lemma Fields(p: string, a: string, z: string, x: string)
    requires |p| == 6 && |a| == 2 && |z| == 2 && |x| == 2
    ensures var c := p + a + z + x;
      && |c| == 12 && c[..6] == p && c[6..8] == a && c[8..10] == z && c[10..] == x
  {
  }

  /** Requests below 30 or above 90 send the command for the nearest bound
      (index.js:89-93). */
  lemma HumidityCodeClamps(humidity: int)
    ensures humidity < MinHumidity ==> HumidityCode(humidity) == HumidityCode(MinHumidity)
    ensures humidity > MaxHumidity ==> HumidityCode(humidity) == HumidityCode(MaxHumidity)
  {
  }

  /** The humidity a command asks for, read back from its bytes. */
  function HumidityOf(code: string): Option<int> {
    match DecodeHex(code)
    case Some(bs) =>
      if ValidCommand(code) && bs[2] == 0x84 && bs[4] == 0x00 then Some(bs[3]) else None
    case None => None
  }

  /** Reading a humidity command back gives the clamped humidity: distinct
      targets in 30..90 give distinct commands. */
  lemma HumidityCodeRoundTrip(humidity: int)
    ensures HumidityOf(HumidityCode(humidity)) == Some(Clamp(humidity))
  {
    var h := Clamp(humidity);
    HumidityCodeIsFrame(humidity);
    HumidityOfFrame(h);
  }

  /** The humidity byte of a 0x84 frame is what `HumidityOf` reads. */
  lemma HumidityOfFrame(hb: Byte)
    ensures HumidityOf(EncodeHex(Frame(0x84, hb, 0x00))) == Some(hb)
  {
    var f := Frame(0x84, hb, 0x00);
    DecodeEncode(f);
    assert ValidCommand(EncodeHex(f));
  }

  /** The literal power codes are frames for command 0x81 (index.js:180). */
  lemma PowerCodeIsFrame(on: bool)
    ensures PowerCode(on) == EncodeHex(Frame(0x81, if on then 0x01 else 0x00, 0x00))
  {
    assert Hex2(0x81) == "81" && Hex2(0x00) == "00";
    if on {
      assert Check(0x55, 0x01, 0x81, 0x01, 0x00) == 0xd4;
      assert Hex2(0x01) == "01" && Hex2(0xd4) == "d4";
      FrameText(0x81, 0x01, 0x00, "5501810100d4");
    } else {
      assert Check(0x55, 0x01, 0x81, 0x00, 0x00) == 0xd5;
      assert Hex2(0xd5) == "d5";
      FrameText(0x81, 0x00, 0x00, "5501810000d5");
    }
  }

  /** The literal fan codes are frames for command 0x85 carrying the speed, and
      exactly the speeds 1, 2 and 3 have one (index.js:235-245). */
  lemma FanCodeIsFrame(speed: int)
    ensures FanCode(speed).Some? <==> 1 <= speed <= 3
    ensures 1 <= speed <= 3 ==> FanCode(speed).value == EncodeHex(Frame(0x85, speed, 0x00))
  {
    assert Hex2(0x85) == "85" && Hex2(0x00) == "00";
    if speed == 1 {
      assert Check(0x55, 0x01, 0x85, 0x01, 0x00) == 0xd0;
      assert Hex2(0x01) == "01" && Hex2(0xd0) == "d0";
      FrameText(0x85, 0x01, 0x00, "5501850100d0");
    } else if speed == 2 {
      assert Check(0x55, 0x01, 0x85, 0x02, 0x00) == 0xd3;
      assert Hex2(0x02) == "02" && Hex2(0xd3) == "d3";
      FrameText(0x85, 0x02, 0x00, "5501850200d3");
    } else if speed == 3 {
      assert Check(0x55, 0x01, 0x85, 0x03, 0x00) == 0xd2;
      assert Hex2(0x03) == "03" && Hex2(0xd2) == "d2";
      FrameText(0x85, 0x03, 0x00, "5501850300d2");
    }
  }

  /** The power codes, every defined fan code and the intended humidity code
      are well-formed frames. */
  lemma EmittedCodesValid(on: bool, speed: int, humidity: int)
    ensures ValidCommand(PowerCode(on))
    ensures FanCode(speed).Some? ==> ValidCommand(FanCode(speed).value)
    ensures ValidCommand(HumidityCode(humidity))
  {
    PowerCodeIsFrame(on);
    ValidCommandIsFrame(PowerCode(on));
    FanCodeIsFrame(speed);
    if FanCode(speed).Some? {
      ValidCommandIsFrame(FanCode(speed).value);
    }
    HumidityCodeIsFrame(humidity);
    ValidCommandIsFrame(HumidityCode(humidity));
  }

  /** `getHumidityCode` as index.js:84-113 actually runs it. The function is
      wrapped in `.bind(this)` while the prototype literal is being built, so
      `this` is the module's own object, not the accessory: `minHumidityValue`
      and `maxHumidityValue` read as `undefined`. Every comparison with
      `undefined` is false, so nothing is clamped and the catch-all row never
      matches; `humidity - undefined` is `NaN`, which prints as "NaN". The rest
      of the model uses `HumidityCode`, the evidently intended computation. */
  function HumidityCodeUnbound(humidity: int): (code: string)
    ensures |code| >= 9 && code[..6] == "550184" && code[6..9] == "NaN"
  {
    var last := match FirstBand(LeadingBands, humidity)
      case Some(i) => ToHex(LeadingBands[i].base + (humidity - LeadingBands[i].lo))
      case None => "NaN";
    "550184" + "NaN" + "00" + last
  }

  /** The code as written is never a well-formed frame, for any requested
      humidity. */
  lemma UnboundCodeNeverValid(humidity: int)
    ensures !ValidCommand(HumidityCodeUnbound(humidity))
    ensures HumidityCodeUnbound(humidity) != HumidityCode(humidity)
  {
    var code := HumidityCodeUnbound(humidity);
    assert code[6] == 'N' && !IsHexChar(code[6]);
    HumidityCodeShape(humidity);
  }

  /** Two concrete requests: 40% (a row of the table matches) and 50% (it falls
      through to the catch-all), against the intended commands. */
  lemma UnboundCodeExamples()
    ensures HumidityCodeUnbound(40) == "550184NaN00f8"
    ensures HumidityCode(40) == "5501842800f8"
    ensures HumidityCodeUnbound(50) == "550184NaN00NaN"
    ensures HumidityCode(50) == "5501843200e2"
  {
    assert FirstBand(LeadingBands, 40) == Some(0);
    ToHexOfByte(0xf8);
    assert Hex2(0xf8) == "f8";
    assert FirstBand(LeadingBands, 50) == None;
    BandOfHumidity(40);
    BandOfHumidity(50);
  }
}
