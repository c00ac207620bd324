/** pkg/xlog/level.go: the level encoder that names and colours zap levels. */
module XLogLevel {
  import opened Bytes
  import opened Decimal
  import opened XLogColor

  /** zapcore.Level is an int8; these are its named values. */
  const DebugLevel: Int8 := -1
  const InfoLevel: Int8 := 0
  const WarnLevel: Int8 := 1
  const ErrorLevel: Int8 := 2

  /** encodeLevel: the level's display name and its colour. */
  function EncodeLevel(l: Int8): (nc: (string, TermColor))
  {
    if l == DebugLevel then ("DEBUG", ColorMagenta)
    else if l == InfoLevel then ("INFO", ColorBlue)
    else if l == WarnLevel then ("WARN", ColorYellow)
    else if l == ErrorLevel then ("ERROR", ColorRed)
    else ("LEVEL(" + IntToString(l) + ")", ColorRed)
  }

  /** The function returned by customLevelEncoder(withColor), applied to a
      level and an encoder whose appended strings are `enc`. */
  function CustomLevelEncode(withColor: bool, l: Int8, enc: seq<string>): (enc': seq<string>)
    ensures |enc'| == |enc| + 1 && enc'[..|enc|] == enc
  {
    var (name, color) := EncodeLevel(l);
    enc + [if withColor then Add(color, name) else name]
  }

  /** The four named levels and the fallback, with their colours. */
  lemma EncodeLevelTable(l: Int8)
    ensures l == -1 ==> EncodeLevel(l) == ("DEBUG", 35)
    ensures l == 0 ==> EncodeLevel(l) == ("INFO", 34)
    ensures l == 1 ==> EncodeLevel(l) == ("WARN", 33)
    ensures l == 2 ==> EncodeLevel(l) == ("ERROR", 31)
    ensures !(-1 <= l <= 2) ==>
              EncodeLevel(l).1 == 31 &&
              EncodeLevel(l).0[..6] == "LEVEL(" &&
              EncodeLevel(l).0[|EncodeLevel(l).0| - 1] == ')' &&
              ParseInt(EncodeLevel(l).0[6..|EncodeLevel(l).0| - 1]) == l
  {
    if !(-1 <= l <= 2) {
      var n := EncodeLevel(l).0;
      assert n[6..|n| - 1] == IntToString(l);
      ParseIntToString(l);
    }
  }

  /** Different levels never share a display name. */
  lemma EncodeLevelInjective(l1: Int8, l2: Int8)
    requires EncodeLevel(l1).0 == EncodeLevel(l2).0
    ensures l1 == l2
  {
    EncodeLevelTable(l1);
    EncodeLevelTable(l2);
    if (-1 <= l1 <= 2) != (-1 <= l2 <= 2) {
      // only the fallback name starts with "LEVEL("
      assert false;
    }
  }

  /** Exactly one string is appended: the bare name without colour, or the
      name painted in the level's colour, ending with the reset sequence. */
  lemma CustomLevelEncodeAppends(withColor: bool, l: Int8, enc: seq<string>)
    ensures var out := CustomLevelEncode(withColor, l, enc);
            var (name, color) := EncodeLevel(l);
            (!withColor ==> out[|enc|] == name) &&
            (withColor ==> out[|enc|] == Add(color, name) &&
                           out[|enc|][|out[|enc|]| - 4..] == Reset &&
                           out[|enc|][3 + |NatToString(color)|..3 + |NatToString(color)| + |name|] == name)
  {
    var (name, color) := EncodeLevel(l);
    AddParts(color, name);
  }
}
