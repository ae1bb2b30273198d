/** What the words of a setting mean: each setting is written with the names and numbers of
    the documentation, and read back. */
module OutputSettings {
  import opened Helpers
  import opened Numbers
  import opened OutputCommand

  // ---------- Names ----------

  /** The words for a key. */
  function KeyNames(key: Key): set<string> {
    match key
    case Power => {"power", "dpms"}
    case Scale => {"scale"}
    case Transform => {"transform"}
    case Position => {"position"}
    case Mode => {"mode"}
  }

  /** A word is read as a key if and only if it is a name of it. */
  lemma KeysAreRead(word: string, key: Key)
    ensures KeyOf(word) == Some(key) <==> word in KeyNames(key)
  {
  }

  /** The words for a transform. */
  function RotationNames(r: Rotation): set<string> {
    match r
    case R0 => {"normal", "0"}
    case R90 => {"90"}
    case R180 => {"180"}
    case R270 => {"270"}
    case Flipped => {"flipped"}
    case Flipped90 => {"flipped-90"}
    case Flipped180 => {"flipped-180"}
    case Flipped270 => {"flipped-270"}
  }

  lemma RotationsAreRead(word: string, r: Rotation)
    ensures RotationOf(word) == Some(r) <==> word in RotationNames(r)
  {
  }

  lemma DirectionsAreRead(word: string)
    ensures DirectionOf(word) == Some(true) <==> word == "anticlockwise"
    ensures DirectionOf(word) == Some(false) <==> word == "clockwise"
  {
  }

  /** A transform as an angle, and whether it flips the output. */
  function Degrees(r: Rotation): nat {
    match r
    case R0 => 0
    case R90 => 90
    case R180 => 180
    case R270 => 270
    case Flipped => 0
    case Flipped90 => 90
    case Flipped180 => 180
    case Flipped270 => 270
  }

  predicate Flips(r: Rotation) {
    r.Flipped? || r.Flipped90? || r.Flipped180? || r.Flipped270?
  }

  /** Inverting the direction of rotation: the angles add up to a full turn. */
  lemma InvertTurnsBack(r: Rotation, t: Rotation)
    ensures t == Invert(r) <==> Flips(t) == Flips(r) && (Degrees(t) + Degrees(r)) % 360 == 0
    ensures Invert(Invert(r)) == r
  {
  }

  // ---------- The settings, written and read ----------

  lemma SettingIs(word: string, key: Key, args: seq<string>, name: string, a: Answers)
    requires word in KeyNames(key)
    ensures SettingAt([word] + args, name, a) == IncludeKey(SubOf(key, args, name, a))
  {
    KeysAreRead(word, key);
    assert ([word] + args)[1..] == args;
  }

  /** Power: a signal with the word, and with all that follows it. */
  lemma PowerIsRead(word: string, to: string, more: seq<string>, name: string, a: Answers)
    requires word == "power" || word == "dpms"
    ensures SettingAt([word] + ([to] + more), name, a) == Applied(2, SignalPower(name, [to] + more))
  {
    SettingIs(word, Power, [to] + more, name, a);
  }

  /** Scale: a number. */
  lemma ScaleIsRead(text: string, factor: real, more: seq<string>, name: string, a: Answers)
    requires a.strtof(text) == (factor, "") && a.output(name).Some?
    ensures SettingAt(["scale"] + ([text] + more), name, a) == Applied(2, SetScale(factor))
  {
    SettingIs("scale", Scale, [text] + more, name, a);
  }

  /** Transform: the names count clockwise, the compositor counts anticlockwise. */
  lemma TransformIsRead(word: string, r: Rotation, t: Rotation, more: seq<string>, name: string, a: Answers)
    requires word in RotationNames(r) && a.output(name).Some?
    requires Flips(t) == Flips(r) && (Degrees(t) + Degrees(r)) % 360 == 0
    requires more != [] ==> more[0] != "clockwise" && more[0] != "anticlockwise"
    ensures SettingAt(["transform"] + ([word] + more), name, a) == Applied(2, SetTransform(t))
  {
    SettingIs("transform", Transform, [word] + more, name, a);
    RotationsAreRead(word, r);
    InvertTurnsBack(r, t);
    if more != [] { DirectionsAreRead(more[0]); }
  }

  /** With a direction behind it the transform is put on top of the output's own. */
  lemma RelativeTransformIsRead(word: string, anti: bool, r: Rotation, t: Rotation, more: seq<string>, name: string,
                                a: Answers)
    requires word in RotationNames(r) && a.output(name).Some? && a.output(name).value.handle.Some? && name != "*"
    requires if anti then t == r else Flips(t) == Flips(r) && (Degrees(t) + Degrees(r)) % 360 == 0
    ensures var direction := if anti then "anticlockwise" else "clockwise";
            SettingAt(["transform"] + ([word, direction] + more), name, a) ==
            Applied(3, SetTransform(a.compose(a.output(name).value.handle.value.transform, t)))
  {
    var direction := if anti then "anticlockwise" else "clockwise";
    SettingIs("transform", Transform, [word, direction] + more, name, a);
    RotationsAreRead(word, r);
    InvertTurnsBack(r, if anti then Invert(r) else t);
    DirectionsAreRead(direction);
  }

  /** Two numbers as a user writes them: in one word with a separator, or in two words. */
  function NumberWords(x: int, y: int, separator: char, joined: bool): seq<string> {
    if joined then [Show(x) + ([separator] + Show(y))] else [Show(x), Show(y)]
  }

  lemma ShownIsRead(n: int)
    requires FitsInt32(n)
    ensures Int32(Strtol(Show(n)).0) == n && Strtol(Show(n)).1 == ""
  {
    StrtolOfShow(n, "");
    assert Show(n) + "" == Show(n);
  }

  lemma JoinedNumbersAreRead(x: int, y: int, separator: char, tail: string, more: seq<string>)
    requires FitsInt32(x) && FitsInt32(y) && !IsDigit(separator) && Stops(tail)
    ensures TwoNumbers([Show(x) + ([separator] + (Show(y) + tail))] + more, separator) == Pair(x, y, 1, tail)
  {
    var behind := [separator] + (Show(y) + tail);
    StrtolOfShow(x, behind);
    StrtolOfShow(y, tail);
    assert behind[1..] == Show(y) + tail;
  }

  lemma NumbersAreRead(x: int, y: int, separator: char, joined: bool, more: seq<string>)
    requires FitsInt32(x) && FitsInt32(y) && !IsDigit(separator)
    ensures TwoNumbers(NumberWords(x, y, separator, joined) + more, separator) ==
            Pair(x, y, if joined then 1 else 2, "")
  {
    if joined {
      JoinedNumbersAreRead(x, y, separator, "", more);
      assert Show(y) + "" == Show(y);
    } else {
      ShownIsRead(x);
      ShownIsRead(y);
    }
  }

  lemma PositionSubIs(args: seq<string>, x: int, y: int, used: nat, name: string, a: Answers)
    requires args != [] && TwoNumbers(args, ',') == Pair(x, y, used, "") && a.output(name).Some?
    ensures PositionSub(args, name, a) == Applied(used, SetPosition(x, y))
  {
  }

  /** Position: x and then y, for all 32-bit numbers. */
  lemma PositionIsRead(x: int, y: int, joined: bool, more: seq<string>, name: string, a: Answers)
    requires FitsInt32(x) && FitsInt32(y) && a.output(name).Some?
    ensures var words := NumberWords(x, y, ',', joined);
            SettingAt(["position"] + (words + more), name, a) == Applied(1 + |words|, SetPosition(x, y))
  {
    var words := NumberWords(x, y, ',', joined);
    SettingIs("position", Position, words + more, name, a);
    NumbersAreRead(x, y, ',', joined, more);
    PositionSubIs(words + more, x, y, |words|, name, a);
  }

  /** FindMode is the first mode with the size and, unless it is -1, the refresh rate. */
  lemma {:induction false} FindModeIsFirst(modes: seq<OutputMode>, wanted: OutputMode)
    ensures match FindMode(modes, wanted)
            case None => forall i :: 0 <= i < |modes| ==> !Fits(modes[i], wanted)
            case Some(m) => exists k :: 0 <= k < |modes| && modes[k] == m && Fits(m, wanted)
                                        && forall i :: 0 <= i < k ==> !Fits(modes[i], wanted)
  {
    if modes != [] && !MatchesMode(modes[0], wanted) {
      FindModeIsFirst(modes[1..], wanted);
      match FindMode(modes[1..], wanted)
      case None =>
      case Some(m) =>
        var k :| 0 <= k < |modes[1..]| && modes[1..][k] == m && Fits(m, wanted)
                 && forall i :: 0 <= i < k ==> !Fits(modes[1..][i], wanted);
        forall i | 0 <= i < k + 1 ensures !Fits(modes[i], wanted) {
          if i > 0 { assert modes[i] == modes[1..][i - 1]; }
        }
        assert modes[k + 1] == m;
    }
  }

  /** Width and height are the wanted ones, and the refresh rate is, if one is wanted. */
  predicate Fits(m: OutputMode, wanted: OutputMode) {
    m.width == wanted.width && m.height == wanted.height && (wanted.refresh != -1.0 ==> m.refresh == wanted.refresh)
  }

  /** What a mode that was read does: a custom one is set as it is, else the first of the
      output's modes that fits. */
  function ModeSetting(used: nat, wanted: OutputMode, custom: bool, modes: seq<OutputMode>): Sub {
    if custom then Applied(used + 1, SetMode(wanted, true))
    else match FindMode(modes, wanted)
      case None => Refused(Aborted)
      case Some(m) => Applied(used, SetMode(m, false))
  }

  function ModeWords(words: seq<string>, custom: bool): seq<string> {
    if custom then ["--custom"] + words else words
  }

  lemma SizeIsNotCustom(width: int, rest: string)
    ensures Show(width) + rest != CUSTOM
  {
    var s := Show(width) + rest;
    if width >= 0 {
      assert IsDigit(s[0]) && s[0] == ToString(width)[0];
    } else {
      assert s[1] == ToString(-width)[0] && CUSTOM[1] == '-';
    }
  }

  lemma ModeSubIs(words: seq<string>, name: string, a: Answers, custom: bool)
    requires words != [] && words[0] != CUSTOM
    ensures ModeSub(ModeWords(words, custom), name, a) ==
            if custom then IncludeKey(SizedMode(words, name, a, true)) else SizedMode(words, name, a, false)
  {
    assert ["--custom"] + words != [] && (["--custom"] + words)[1..] == words;
  }

  /** Mode: a size, in one word or two. */
  lemma ModeIsRead(width: int, height: int, joined: bool, custom: bool, more: seq<string>, name: string, a: Answers)
    requires FitsInt32(width) && FitsInt32(height) && a.output(name).Some? && a.output(name).value.handle.Some?
    ensures var words := NumberWords(width, height, 'x', joined);
            SettingAt(["mode"] + ModeWords(words + more, custom), name, a) ==
            IncludeKey(ModeSetting(|words|, OutputMode(width, height, -1.0), custom,
                                   a.output(name).value.handle.value.modes))
  {
    var words := NumberWords(width, height, 'x', joined);
    SettingIs("mode", Mode, ModeWords(words + more, custom), name, a);
    NumbersAreRead(width, height, 'x', joined, more);
    SizeIsNotCustom(width, if joined then ['x'] + Show(height) else "");
    assert Show(width) + "" == Show(width);
    ModeSubIs(words + more, name, a, custom);
  }

  /** A size in one word, with a refresh rate in hertz behind it. */
  lemma ModeWithRateIsRead(width: int, height: int, text: string, rate: real, custom: bool, more: seq<string>,
                           name: string, a: Answers)
    requires FitsInt32(width) && FitsInt32(height) && a.output(name).Some? && a.output(name).value.handle.Some?
    requires a.strtof(text + "Hz") == (rate, "Hz")
    ensures var word := Show(width) + (['x'] + (Show(height) + ("@" + (text + "Hz"))));
            SettingAt(["mode"] + ModeWords([word] + more, custom), name, a) ==
            IncludeKey(ModeSetting(1, OutputMode(width, height, rate), custom,
                                   a.output(name).value.handle.value.modes))
  {
    var tail := "@" + (text + "Hz");
    var behind := ['x'] + (Show(height) + tail);
    var words := [Show(width) + behind] + more;
    SettingIs("mode", Mode, ModeWords(words, custom), name, a);
    JoinedNumbersAreRead(width, height, 'x', tail, more);
    SizeIsNotCustom(width, behind);
    ModeSubIs(words, name, a, custom);
    assert tail[1..] == text + "Hz";
  }
}
