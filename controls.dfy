/** Keyboard input folded into rocket controls, and the garbage spawn cadence by year. */
module Controls {
  import opened Wrappers
  import Physics

  /** curses key codes the game reacts to. */
  const SpaceKeyCode: int := 32
  const LeftKeyCode: int := 260
  const RightKeyCode: int := 261
  const UpKeyCode: int := 259
  const DownKeyCode: int := 258
  /** What `getch` returns when no key is waiting. */
  const NoKey: int := -1

  /**
   * The keys read in one call of `read_controls`: everything before the first `NoKey`.
   * A stream that runs out is read as if `getch` then reported `NoKey`.
   */
  function PendingKeys(keys: seq<int>): (pending: seq<int>)
    ensures |pending| <= |keys|
    ensures forall k :: 0 <= k < |pending| ==> pending[k] == keys[k] && pending[k] != NoKey
  {
    if keys == [] || keys[0] == NoKey then []
    else [keys[0]] + PendingKeys(keys[1..])
  }

  /** The keys read are a prefix of the stream, free of `NoKey`, and end at `NoKey` or the stream's end. */
  lemma {:induction false} PendingKeysIsPrefixBeforeNoKey(keys: seq<int>)
    ensures PendingKeys(keys) <= keys
    ensures NoKey !in PendingKeys(keys)
    ensures |PendingKeys(keys)| < |keys| ==> keys[|PendingKeys(keys)|] == NoKey
  {
    if keys != [] && keys[0] != NoKey {
      PendingKeysIsPrefixBeforeNoKey(keys[1..]);
      assert keys == [keys[0]] + keys[1..];
    }
  }

  /**
   * The force on one axis after the given keys: -1 or 1 for the last of the two
   * arrow keys of that axis, 0 if neither occurs. Defined from the last key backwards.
   */
  function AxisDirection(keys: seq<int>, negativeKey: int, positiveKey: int): (d: int)
    requires negativeKey != positiveKey
    ensures d == -1 || d == 0 || d == 1
  {
    if keys == [] then 0
    else
      var last := keys[|keys| - 1];
      if last == negativeKey then -1
      else if last == positiveKey then 1
      else AxisDirection(keys[..|keys| - 1], negativeKey, positiveKey)
  }

  /** The last arrow key of an axis decides its force, whatever other keys follow it. */
  lemma {:induction false} LastArrowKeyWins(keys: seq<int>, negativeKey: int, positiveKey: int, i: int)
    requires negativeKey != positiveKey
    requires 0 <= i < |keys| && (keys[i] == negativeKey || keys[i] == positiveKey)
    requires forall j :: i < j < |keys| ==> keys[j] != negativeKey && keys[j] != positiveKey
    ensures AxisDirection(keys, negativeKey, positiveKey) == if keys[i] == negativeKey then -1 else 1
    decreases |keys|
  {
    if i < |keys| - 1 {
      var front := keys[..|keys| - 1];
      assert forall j :: i < j < |front| ==> front[j] == keys[j];
      LastArrowKeyWins(front, negativeKey, positiveKey, i);
    }
  }

  /** Without an arrow key of an axis its force is 0. */
  lemma {:induction false} NoArrowKeyNoForce(keys: seq<int>, negativeKey: int, positiveKey: int)
    requires negativeKey != positiveKey
    requires negativeKey !in keys && positiveKey !in keys
    ensures AxisDirection(keys, negativeKey, positiveKey) == 0
    decreases |keys|
  {
    if keys != [] {
      var front := keys[..|keys| - 1];
      assert forall k :: k in front ==> k in keys;
      NoArrowKeyNoForce(front, negativeKey, positiveKey);
    }
  }

  /** A key of neither arrow of an axis leaves its force as it was. */
  lemma OtherKeyKeepsForce(keys: seq<int>, key: int, negativeKey: int, positiveKey: int)
    requires negativeKey != positiveKey && key != negativeKey && key != positiveKey
    ensures AxisDirection(keys + [key], negativeKey, positiveKey) == AxisDirection(keys, negativeKey, positiveKey)
  {
    assert (keys + [key])[..|keys|] == keys;
  }

  /** One more key read: the force of an axis after it. */
  lemma AxisDirectionStep(keys: seq<int>, key: int, negativeKey: int, positiveKey: int)
    requires negativeKey != positiveKey
    ensures AxisDirection(keys + [key], negativeKey, positiveKey) ==
      if key == negativeKey then -1 else if key == positiveKey then 1 else AxisDirection(keys, negativeKey, positiveKey)
  {
    assert (keys + [key])[..|keys|] == keys;
  }

  /** A key other than `NoKey` at position i is read, and reading continues after it. */
  lemma PendingKeysStep(keys: seq<int>, i: int, read: seq<int>)
    requires 0 <= i < |keys| && keys[i] != NoKey
    requires PendingKeys(keys) == read + PendingKeys(keys[i..])
    ensures PendingKeys(keys) == (read + [keys[i]]) + PendingKeys(keys[i + 1..])
  {
    var rest := keys[i..];
    assert rest[0] == keys[i] && rest[1..] == keys[i + 1..];
    assert PendingKeys(rest) == [keys[i]] + PendingKeys(keys[i + 1..]);
  }

  /** Reading stops at `NoKey` or at the end of the stream. */
  lemma PendingKeysEnd(keys: seq<int>, i: int, read: seq<int>)
    requires 0 <= i <= |keys| && (i == |keys| || keys[i] == NoKey)
    requires PendingKeys(keys) == read + PendingKeys(keys[i..])
    ensures PendingKeys(keys) == read
  {
    assert PendingKeys(keys[i..]) == [];
  }

  /**
   * `read_controls`: read key codes until `getch` reports none; the last arrow key on
   * each axis sets its direction and any space press requests a shot.
   */
  method ReadControls(keys: seq<int>) returns (rowsDirection: int, columnsDirection: int, spacePressed: bool)
    ensures rowsDirection == AxisDirection(PendingKeys(keys), UpKeyCode, DownKeyCode)
    ensures columnsDirection == AxisDirection(PendingKeys(keys), LeftKeyCode, RightKeyCode)
    ensures spacePressed <==> SpaceKeyCode in PendingKeys(keys)
  {
    rowsDirection, columnsDirection := 0, 0;
    spacePressed := false;
    var i := 0;
    ghost var read: seq<int> := [];
    while i < |keys|
      invariant 0 <= i <= |keys|
      invariant PendingKeys(keys) == read + PendingKeys(keys[i..])
      invariant rowsDirection == AxisDirection(read, UpKeyCode, DownKeyCode)
      invariant columnsDirection == AxisDirection(read, LeftKeyCode, RightKeyCode)
      invariant spacePressed <==> SpaceKeyCode in read
    {
      var pressedKeyCode := keys[i];
      if pressedKeyCode == NoKey {
        break;
      }
      if pressedKeyCode == UpKeyCode {
        rowsDirection := -1;
      }
      if pressedKeyCode == DownKeyCode {
        rowsDirection := 1;
      }
      if pressedKeyCode == RightKeyCode {
        columnsDirection := 1;
      }
      if pressedKeyCode == LeftKeyCode {
        columnsDirection := -1;
      }
      if pressedKeyCode == SpaceKeyCode {
        spacePressed := true;
      }
      PendingKeysStep(keys, i, read);
      AxisDirectionStep(read, pressedKeyCode, UpKeyCode, DownKeyCode);
      AxisDirectionStep(read, pressedKeyCode, LeftKeyCode, RightKeyCode);
      read := read + [pressedKeyCode];
      i := i + 1;
    }
    PendingKeysEnd(keys, i, read);
  }

  /** The controls read are always force directions `update_speed` accepts. */
  lemma ControlsAreValidForces(keys: seq<int>, rowSpeed: real, columnSpeed: real, cos: real -> real)
    ensures var pending := PendingKeys(keys);
      Physics.UpdateSpeed(rowSpeed, columnSpeed, AxisDirection(pending, UpKeyCode, DownKeyCode),
                          AxisDirection(pending, LeftKeyCode, RightKeyCode), cos).Ok?
  {
  }

  /** `get_garbage_delay_tics`: ticks between two garbage spawns, `None` before 1961. */
  function GarbageDelayTics(year: int): (r: Option<int>)
    ensures r.None? <==> year < 1961
    ensures r.Some? ==> r.value in {20, 14, 10, 8, 6, 2}
  {
    if year < 1961 then None
    else if year < 1969 then Some(20)
    else if year < 1981 then Some(14)
    else if year < 1995 then Some(10)
    else if year < 2010 then Some(8)
    else if year < 2020 then Some(6)
    else Some(2)
  }

  /** Once spawning starts it never stops, and the delay only shrinks as years pass. */
  lemma DelayShrinksOverTime(year: int, later: int)
    requires year <= later
    requires GarbageDelayTics(year).Some?
    ensures GarbageDelayTics(later).Some?
    ensures 0 < GarbageDelayTics(later).value <= GarbageDelayTics(year).value
  {
  }
}
