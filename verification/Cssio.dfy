/** CSS 3.0 wfdisc records and the files they index. */
module Cssio {

  type byte = bv8

  /** Files by path name. */
  type FileSystem = map<string, seq<byte>>

  /** The fields of a wfdisc record that no modelled program looks at. */
  datatype Rest = Rest(wfid: int, chanid: int, calib: real, calper: real, instype: string,
                       segtype: char, clip: char, commid: int, lddate: string)

  datatype Wfdisc = Wfdisc(sta: string, chan: string, time: real, jdate: int, endtime: real, nsamp: int,
                           smprate: real, datatyp: string, dir: string, dfile: string, foff: int, rest: Rest)

  /** cssio_wfdisc_null. */
  const NULL_WFDISC := Wfdisc("-", "-", -9999999999.999, -1, -9999999999.999, -1, -1.0, "-", "-", "-", -1,
                              Rest(-1, -1, 0.0, -1.0, "-", '-', '-', -1, "-"))

  /** cssio_wrdsize: bytes in one sample, -1 for a datatype it does not know. */
  function WrdSize(datatyp: string): (w: int)
    ensures w == -1 || 2 <= w <= 24
  {
    match datatyp
    case "a0" => 12
    case "b0" => 15
    case "c0" => 24
    case "t4" => 4
    case "t8" => 8
    case "s4" => 4
    case "s2" => 2
    case "f4" => 4
    case "f8" => 8
    case "i4" => 4
    case "i2" => 2
    case "g2" => 2
    case _ => -1
  }

  const BINARY := ["t4", "t8", "s4", "s2", "f4", "f8", "i4", "i2", "g2"]
  const TEXT := ["a0", "b0", "c0"]

  /** A binary datatype has its width as the digit of its name; the text ones have 12, 15 and 24 characters to a sample,
      and no others are known. */
  lemma WidthsAreNamed(datatyp: string)
    ensures datatyp in BINARY ==> |datatyp| == 2 && WrdSize(datatyp) == datatyp[1] as int - '0' as int
    ensures WrdSize(TEXT[0]) == 12 && WrdSize(TEXT[1]) == 15 && WrdSize(TEXT[2]) == 24
    ensures WrdSize(datatyp) > 0 <==> datatyp in BINARY || datatyp in TEXT
  {
    if WrdSize(datatyp) > 0 {
      assert || datatyp == TEXT[0] || datatyp == TEXT[1] || datatyp == TEXT[2]
             || datatyp == BINARY[0] || datatyp == BINARY[1] || datatyp == BINARY[2] || datatyp == BINARY[3]
             || datatyp == BINARY[4] || datatyp == BINARY[5] || datatyp == BINARY[6] || datatyp == BINARY[7]
             || datatyp == BINARY[8];
    }
  }

  function PathOf(dir: string, dfile: string): string {
    dir + "/" + dfile
  }

  function Path(r: Wfdisc): string {
    PathOf(r.dir, r.dfile)
  }
}
