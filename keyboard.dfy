/** The keyboard state and the key-combination predicates. The library keeps the
    names of the keys held down; a combination is written like `"Ctrl + Up + A"`
    and normalised by upper-casing it, removing spaces and splitting on `+`. */
module Keyboard {
  import opened JsObject
  import opened JsValues

  /** `keyMapping`: key codes to key names. */
  const KeyTable: map<int, string> := map[
    8 := "BACKSPACE", 13 := "ENTER", 16 := "SHIFT", 17 := "CTRL", 18 := "ALT",
    20 := "CAPSLOCK", 27 := "ESC", 33 := "PGUP", 34 := "PGDOWN", 35 := "END",
    36 := "HOME", 37 := "LEFT", 38 := "UP", 39 := "RIGHT", 40 := "DOWN",
    44 := "PRINTSCREEN", 45 := "INSERT", 46 := "DEL",
    48 := "0", 49 := "1", 50 := "2", 51 := "3", 52 := "4",
    53 := "5", 54 := "6", 55 := "7", 56 := "8", 57 := "9",
    65 := "A", 66 := "B", 67 := "C", 68 := "D", 69 := "E", 70 := "F", 71 := "G",
    72 := "H", 73 := "I", 74 := "J", 75 := "K", 76 := "L", 77 := "M", 78 := "N",
    79 := "O", 80 := "P", 81 := "Q", 82 := "R", 83 := "S", 84 := "T", 85 := "U",
    86 := "V", 87 := "W", 88 := "X", 89 := "Y", 90 := "Z", 91 := "WIN",
    112 := "F1", 113 := "F2", 114 := "F3", 115 := "F4", 116 := "F5", 117 := "F6",
    118 := "F7", 119 := "F8", 120 := "F9", 121 := "F10", 122 := "F11", 123 := "F12"
  ]

  /** The property name `keyMapping[code]` is used as: an unmapped code gives
      `undefined`, which becomes the key `"undefined"`. */
  function KeyName(code: int): (name: string)
    ensures code !in KeyTable ==> name == "undefined"
  {
    if code in KeyTable then KeyTable[code] else "undefined"
  }

  /** `keyMapping[event.keyCode]` for the value an event carries: a whole number or
      its canonical numeral looks the table up; anything else names no entry. */
  function KeyNameOf(keyCode: Value): string {
    match keyCode
    case Num(r) => if r >= 0.0 && r == r.Floor as real then KeyName(r.Floor) else "undefined"
    case Str(s) => if IsArrayIndex(s) then KeyName(IndexValue(s)) else "undefined"
    case _ => "undefined"
  }

  lemma KeyNameOfCode(code: nat)
    ensures KeyNameOf(Num(code as real)) == KeyName(code)
  {
    assert (code as real).Floor == code;
  }

  /** The keydown listener's update: the key's name is recorded as pressed. */
  function Press(pressed: set<string>, code: Value): (r: set<string>)
    ensures KeyNameOf(code) in r
  {
    pressed + {KeyNameOf(code)}
  }

  /** The keyup listener's update: the key's name is deleted. */
  function Release(pressed: set<string>, code: Value): (r: set<string>)
    ensures KeyNameOf(code) !in r
  {
    pressed - {KeyNameOf(code)}
  }

  /** Pressing then releasing a key that was up leaves the other keys as they were. */
  lemma PressRelease(pressed: set<string>, code: Value)
    requires KeyNameOf(code) !in pressed
    ensures Release(Press(pressed, code), code) == pressed
  {
  }

  /** `keys.toUpperCase().replace(/ /g, "").split("+")` */
  function Wanted(keys: string): (w: seq<string>)
    ensures |w| >= 1
    ensures forall i :: 0 <= i < |w| ==> ' ' !in w[i] && '+' !in w[i]
  {
    var norm := RemoveSpaces(ToUpper(keys));
    var w := Split(norm, '+');
    assert forall i :: 0 <= i < |w| ==> ' ' !in w[i] by {
      SplitPartsFrom(norm, '+');
    }
    w
  }

  lemma {:induction false} SplitPartsFrom(s: string, sep: char)
    ensures forall i, c :: 0 <= i < |Split(s, sep)| && c in Split(s, sep)[i] ==> c in s
    decreases |s|
  {
    if sep in s {
      var k := FirstIndex(s, sep);
      SplitPartsFrom(s[k + 1..], sep);
      var parts := Split(s, sep);
      forall i, c | 0 <= i < |parts| && c in parts[i] ensures c in s {
        if i == 0 {
          assert c in s[..k];
        } else {
          assert parts[i] == Split(s[k + 1..], sep)[i - 1];
          assert c in s[k + 1..];
        }
      }
    }
  }

  /** The loop of `isKeysPressed`: false at the first key that is not pressed. */
  predicate AllPressed(pressed: set<string>, ks: seq<string>) {
    if ks == [] then true else ks[0] in pressed && AllPressed(pressed, ks[1..])
  }

  /** `CC.isNoKeyPressed()`: the enumeration of the pressed keys yields nothing. */
  predicate IsNoKeyPressed(pressed: set<string>) {
    pressed == {}
  }

  /** `CC.isKeysPressed(keys)` */
  predicate IsKeysPressed(pressed: set<string>, keys: string) {
    AllPressed(pressed, Wanted(keys))
  }

  /** `CC.isKeysPressedOnly(keys)`: every wanted key is pressed, then every pressed
      key must be among the wanted ones. */
  predicate IsKeysPressedOnly(pressed: set<string>, keys: string) {
    var w := Wanted(keys);
    AllPressed(pressed, w) && forall j :: j in pressed ==> j in w
  }

  /** The first loop of the `onKeysComboEnd` handler: each wanted key must be pressed
      or be the key just released. */
  predicate AllPressedOrReleased(pressed: set<string>, ks: seq<string>, released: string) {
    if ks == [] then true
    else (ks[0] in pressed || ks[0] == released) && AllPressedOrReleased(pressed, ks[1..], released)
  }

  /** The condition under which the `onKeysComboEnd` handler calls its action; it runs
      on keyup, after the released key has been deleted from the pressed set. */
  predicate ComboEnded(pressed: set<string>, keys: string, released: string) {
    var w := Wanted(keys);
    && AllPressedOrReleased(pressed, w, released)
    && released in w
    && forall j :: j in pressed ==> j in w
  }

  lemma {:induction false} AllPressedIff(pressed: set<string>, ks: seq<string>)
    ensures AllPressed(pressed, ks) <==> forall i :: 0 <= i < |ks| ==> ks[i] in pressed
  {
    if ks != [] {
      AllPressedIff(pressed, ks[1..]);
      assert forall i :: 1 <= i < |ks| ==> ks[i] == ks[1..][i - 1];
    }
  }

  lemma {:induction false} AllPressedOrReleasedIff(pressed: set<string>, ks: seq<string>, released: string)
    ensures AllPressedOrReleased(pressed, ks, released)
            <==> forall i :: 0 <= i < |ks| ==> ks[i] in pressed || ks[i] == released
  {
    if ks != [] {
      AllPressedOrReleasedIff(pressed, ks[1..], released);
      assert forall i :: 1 <= i < |ks| ==> ks[i] == ks[1..][i - 1];
    }
  }

  /** The names a combination asks for, as a set. */
  function WantedSet(keys: string): set<string> {
    set i | 0 <= i < |Wanted(keys)| :: Wanted(keys)[i]
  }

  /** `isKeysPressed` holds exactly when every wanted key is pressed. */
  lemma KeysPressedIff(pressed: set<string>, keys: string)
    ensures IsKeysPressed(pressed, keys) <==> WantedSet(keys) <= pressed
  {
    AllPressedIff(pressed, Wanted(keys));
  }

  /** `isKeysPressedOnly` holds exactly when the pressed keys are the wanted keys. */
  lemma KeysPressedOnlyIff(pressed: set<string>, keys: string)
    ensures IsKeysPressedOnly(pressed, keys) <==> WantedSet(keys) == pressed
  {
    var w := Wanted(keys);
    AllPressedIff(pressed, w);
    if WantedSet(keys) == pressed {
      forall j | j in pressed ensures j in w {
        var i :| 0 <= i < |w| && w[i] == j;
      }
    }
  }

  /** "Only" is the stronger test. */
  lemma OnlyImpliesPressed(pressed: set<string>, keys: string)
    ensures IsKeysPressedOnly(pressed, keys) ==> IsKeysPressed(pressed, keys)
  {
  }

  /** The empty combination wants the empty name, which no key has: `isKeysPressed("")`
      is false. */
  lemma EmptyCombinationNeverPressed(pressed: set<string>)
    requires "" !in pressed
    ensures !IsKeysPressed(pressed, "")
  {
    assert Wanted("") == [""];
  }

  /** A combo ends on a keyup exactly when the wanted keys are the keys still held
      plus the key just released. */
  lemma ComboEndedIff(pressed: set<string>, keys: string, released: string)
    requires released !in pressed
    ensures ComboEnded(pressed, keys, released) <==> WantedSet(keys) == pressed + {released}
  {
    var w := Wanted(keys);
    AllPressedOrReleasedIff(pressed, w, released);
    if WantedSet(keys) == pressed + {released} {
      assert released in WantedSet(keys);
      forall j | j in pressed ensures j in w {
        var i :| 0 <= i < |w| && w[i] == j;
      }
    }
    if ComboEnded(pressed, keys, released) {
      forall j | j in pressed + {released} ensures j in WantedSet(keys) {
        if j == released {
          var i :| 0 <= i < |w| && w[i] == j;
        } else {
          var i :| 0 <= i < |w| && w[i] == j;
        }
      }
    }
  }

  /** Example: normalisation of one combination written with spaces and lower case. */
  lemma NormaliseExample()
    ensures Wanted("Up + a") == ["UP", "A"]
  {
    UpperExample();
    SpacesExample();
    SplitExample();
  }

  /** Example: the upper-casing step of `NormaliseExample`. */
  lemma UpperExample()
    ensures ToUpper("Up + a") == "UP + A"
  {
  }

  /** Example: the space-removing step of `NormaliseExample`. */
  lemma SpacesExample()
    ensures RemoveSpaces("UP + A") == "UP+A"
  {
    assert RemoveSpaces(" A") == "A";
    assert RemoveSpaces("+ A") == "+A";
    assert RemoveSpaces(" + A") == "+A";
  }

  /** Example: the splitting step of `NormaliseExample`. */
  lemma SplitExample()
    ensures Split("UP+A", '+') == ["UP", "A"]
  {
    var ns := "UP+A";
    assert FirstIndex(ns, '+') == 2;
    assert ns[3..] == "A" && ns[..2] == "UP";
    assert Split("A", '+') == ["A"];
  }
}
