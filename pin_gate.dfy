/** The four-box PIN gate in front of the admin panel: typing, backspace
    navigation and pasting. A keyboard focus that `focus()` moves is part of
    the state; the success callback is reported as a result. */
module PinGate {
  import opened Common

  const AdminPin := "5555"

  const EmptyPin: seq<string> := ["", "", "", ""]

  /** What the gate shows: the four boxes, the error flag and the focused box. */
  datatype Gate = Gate(pin: seq<string>, error: bool, focus: nat)

  /** Four boxes, each empty or holding one digit. */
  predicate CellsValid(p: seq<string>) {
    |p| == 4 && forall i :: 0 <= i < 4 ==> |p[i]| <= 1 && AllDigits(p[i])
  }

  predicate GateValid(g: Gate) {
    CellsValid(g.pin) && g.focus < 4
  }

  /** `value.slice(-1)`. */
  function LastChar(v: string): (r: string)
    ensures |r| == (if v == [] then 0 else 1)
    ensures v != [] ==> r[0] == v[|v| - 1]
  {
    if v == [] then "" else [v[|v| - 1]]
  }

  /** `handleChange(index, value)`: the new gate and whether `onSuccess` ran. */
  function Change(g: Gate, index: nat, value: string): (r: (Gate, bool))
    requires |g.pin| == 4 && index < 4
    ensures !AllDigits(value) ==> r == (g, false)
    ensures r.1 <==> AllDigits(value) && value != [] && index == 3
                     && Join(g.pin[3 := LastChar(value)], "") == AdminPin
    ensures r.1 ==> Join(r.0.pin, "") == AdminPin
    ensures AllDigits(value) ==> (r.0.error <==> index == 3 && value != [] && !r.1)
    ensures AllDigits(value) && r.0.error ==> r.0.pin == EmptyPin && r.0.focus == 0
    ensures AllDigits(value) && !(index == 3 && value != []) ==>
              r.0 == Gate(g.pin[index := LastChar(value)], false, if value != [] then index + 1 else g.focus)
  {
    if !AllDigits(value) then (g, false)
    else
      var np := g.pin[index := LastChar(value)];
      var f := if value != [] && index < 3 then index + 1 else g.focus;
      if index == 3 && value != [] then
        if Join(np, "") == AdminPin then (Gate(np, false, f), true)
        else (Gate(EmptyPin, true, 0), false)
      else (Gate(np, false, f), false)
  }

  /** `handleKeyDown`: Backspace in an empty box moves to the previous one. */
  function KeyDown(g: Gate, index: nat, key: string): (r: Gate)
    requires |g.pin| == 4 && index < 4
    ensures r.pin == g.pin && r.error == g.error
    ensures r.focus != g.focus ==> key == "Backspace" && g.pin[index] == "" && index > 0 && r.focus == index - 1
    ensures key == "Backspace" && g.pin[index] == "" && index > 0 ==> r.focus == index - 1
    ensures !(key == "Backspace" && g.pin[index] == "" && index > 0) ==> r == g
  {
    if key == "Backspace" && g.pin[index] == "" && index > 0 then Gate(g.pin, g.error, index - 1) else g
  }

  /** The first four characters of the clipboard text. */
  function Clip4(text: string): (r: string)
    ensures |r| == (if |text| < 4 then |text| else 4) && r == text[..|r|]
  {
    if |text| < 4 then text else text[..4]
  }

  /** `pastedData.split('')` padded with empty boxes to four. */
  function PadCells(p: string): (r: seq<string>)
    requires |p| <= 4
    ensures |r| == 4
    ensures forall i :: 0 <= i < |p| ==> r[i] == [p[i]]
    ensures forall i :: |p| <= i < 4 ==> r[i] == ""
  {
    seq(4, i requires 0 <= i < 4 => if i < |p| then [p[i]] else "")
  }

  /** `handlePaste`: non-digit text is ignored; the digits fill the boxes;
      the PIN unlocks, four wrong digits reset the boxes and show the error;
      fewer than four leave the boxes filled and the error as it was. */
  function Paste(g: Gate, text: string): (r: (Gate, bool))
    ensures var p := Clip4(text);
            (p == [] || !AllDigits(p)) ==> r == (g, false)
    ensures var p := Clip4(text);
            p == AdminPin ==> r == (Gate(PadCells(p), g.error, g.focus), true)
    ensures var p := Clip4(text);
            p != [] && AllDigits(p) && |p| == 4 && p != AdminPin ==> r == (Gate(EmptyPin, true, 0), false)
    ensures var p := Clip4(text);
            p != [] && AllDigits(p) && |p| < 4 ==> r == (Gate(PadCells(p), g.error, g.focus), false)
    ensures r.0.focus != g.focus ==> r.0.focus == 0 && r.0.error
  {
    var p := Clip4(text);
    if p == [] || !AllDigits(p) then (g, false)
    else
      var np := PadCells(p);
      JoinPadCells(p);
      if Join(np, "") == AdminPin then (Gate(np, g.error, g.focus), true)
      else if |p| == 4 then (Gate(EmptyPin, true, 0), false)
      else (Gate(np, g.error, g.focus), false)
  }

  /** Joining the padded boxes gives back the pasted digits. */
  lemma {:induction false} JoinPadCells(p: string)
    requires |p| <= 4
    ensures Join(PadCells(p), "") == p
  {
    var c := PadCells(p);
    var tail3 := c[1..];
    var tail2 := tail3[1..];
    var tail1 := tail2[1..];
    assert Join(tail1, "") == c[3];
    assert Join(tail2, "") == c[2] + c[3];
    assert Join(tail3, "") == c[1] + c[2] + c[3];
    assert Join(c, "") == c[0] + c[1] + c[2] + c[3];
    if |p| == 0 {
    } else if |p| == 1 {
      assert p == [p[0]];
    } else if |p| == 2 {
      assert p == [p[0]] + [p[1]];
    } else if |p| == 3 {
      assert p == [p[0]] + [p[1]] + [p[2]];
    } else {
      assert p == [p[0]] + [p[1]] + [p[2]] + [p[3]];
    }
  }

  /** Pasting unlocks exactly when the clipboard text starts with the PIN. */
  lemma PasteUnlocksIffPin(g: Gate, text: string)
    ensures Paste(g, text).1 <==> |text| >= 4 && text[..4] == AdminPin
  {
    var p := Clip4(text);
    if p != [] && AllDigits(p) {
      JoinPadCells(p);
    }
    if |text| >= 4 && text[..4] == AdminPin {
      assert AllDigits(p);
    }
  }

  /** Pasting never clears the error flag unless it unlocks or resets. */
  lemma PasteKeepsShortError(g: Gate, text: string)
    requires |text| < 4
    ensures !Paste(g, text).1 ==> Paste(g, text).0.error == g.error
  {
  }

  /** Every handler keeps four boxes of at most one digit each and a focus on a box. */
  lemma {:induction false} HandlersKeepGateValid(g: Gate, index: nat, value: string, key: string, text: string)
    requires GateValid(g) && index < 4
    ensures GateValid(Change(g, index, value).0)
    ensures GateValid(KeyDown(g, index, key))
    ensures GateValid(Paste(g, text).0)
  {
    var p := Clip4(text);
    if p != [] && AllDigits(p) {
      var np := PadCells(p);
      forall i | 0 <= i < 4 ensures |np[i]| <= 1 && AllDigits(np[i]) {
        if i < |p| {
          assert np[i] == [p[i]];
        }
      }
    }
  }

  /** Typing 5, 5, 5, 5 into the fresh gate unlocks it on the fourth box. */
  lemma TypingThePinUnlocks()
    ensures var g0 := Gate(EmptyPin, false, 0);
            var (g1, s1) := Change(g0, 0, "5");
            var (g2, s2) := Change(g1, 1, "5");
            var (g3, s3) := Change(g2, 2, "5");
            var (g4, s4) := Change(g3, 3, "5");
            !s1 && !s2 && !s3 && s4 && g3.focus == 3
  {
    var g0 := Gate(EmptyPin, false, 0);
    assert AllDigits("5");
    assert LastChar("5") == "5";
    var g1 := Gate(["5", "", "", ""], false, 1);
    assert g0.pin[0 := "5"] == g1.pin;
    assert Change(g0, 0, "5") == (g1, false);
    var g2 := Gate(["5", "5", "", ""], false, 2);
    assert g1.pin[1 := "5"] == g2.pin;
    assert Change(g1, 1, "5") == (g2, false);
    var g3 := Gate(["5", "5", "5", ""], false, 3);
    assert g2.pin[2 := "5"] == g3.pin;
    assert Change(g2, 2, "5") == (g3, false);
    assert Join(g3.pin[3 := "5"], "") == AdminPin by {
      var c := g3.pin[3 := "5"];
      assert Join(c[1..][1..][1..], "") == "5";
      assert Join(c[1..][1..], "") == "55";
      assert Join(c[1..], "") == "555";
    }
  }

  /** The gate as the component holds it. */
  class PinGateView {
    const pin: array<string>
    var error: bool
    var focus: nat

    ghost function State(): Gate
      reads this, pin
    {
      Gate(pin[..], error, focus)
    }

    ghost predicate Valid()
      reads this, pin
    {
      pin.Length == 4 && GateValid(State())
    }

    /** Four empty boxes, no error, the first box focused on mount. */
    constructor ()
      ensures Valid() && State() == Gate(EmptyPin, false, 0)
    {
      pin := new string[4](_ => "");
      error := false;
      focus := 0;
      new;
      assert pin[..] == EmptyPin;
    }

    method Clear()
      requires pin.Length == 4
      modifies pin
      ensures pin[..] == EmptyPin
    {
      pin[0], pin[1], pin[2], pin[3] := "", "", "", "";
      assert pin[..] == EmptyPin;
    }

    method HandleChange(index: nat, value: string) returns (unlocked: bool)
      requires Valid() && index < 4
      modifies this, pin
      ensures Valid()
      ensures (State(), unlocked) == Change(old(State()), index, value)
    {
      HandlersKeepGateValid(State(), index, value, "", "");
      if !AllDigits(value) {
        return false;
      }
      pin[index] := LastChar(value);
      error := false;
      if value != [] && index < 3 {
        focus := index + 1;
      }
      unlocked := false;
      if index == 3 && value != [] {
        if Join(pin[..], "") == AdminPin {
          unlocked := true;
        } else {
          error := true;
          Clear();
          focus := 0;
        }
      }
    }

    method HandleKeyDown(index: nat, key: string)
      requires Valid() && index < 4
      modifies this
      ensures Valid()
      ensures State() == KeyDown(old(State()), index, key)
    {
      HandlersKeepGateValid(State(), index, "", key, "");
      if key == "Backspace" && pin[index] == "" && index > 0 {
        focus := index - 1;
      }
    }

    method HandlePaste(text: string) returns (unlocked: bool)
      requires Valid()
      modifies this, pin
      ensures Valid()
      ensures (State(), unlocked) == Paste(old(State()), text)
    {
      HandlersKeepGateValid(State(), 0, "", "", text);
      var pasted := Clip4(text);
      if pasted == [] || !AllDigits(pasted) {
        return false;
      }
      var newPin: seq<string> := seq(|pasted|, i requires 0 <= i < |pasted| => [pasted[i]]);
      while |newPin| < 4
        invariant |newPin| <= 4
        invariant forall i :: 0 <= i < |newPin| ==> newPin[i] == PadCells(pasted)[i]
        decreases 4 - |newPin|
      {
        newPin := newPin + [""];
      }
      assert newPin == PadCells(pasted);
      pin[0], pin[1], pin[2], pin[3] := newPin[0], newPin[1], newPin[2], newPin[3];
      assert pin[..] == newPin;
      unlocked := false;
      if Join(newPin, "") == AdminPin {
        unlocked := true;
      } else if |pasted| == 4 {
        error := true;
        Clear();
        focus := 0;
      }
    }
  }
}
