/**
 * The one-time-code input of src/components/otp-input.tsx: a row of `length`
 * one-character cells kept in an array, re-filled from the parent's `value`,
 * and overwritten cell by cell by the change, key and paste handlers. Focus
 * moves and the values handed to `onChange` are recorded in fields; the
 * parent that feeds `onChange` back into `value` is outside the model.
 */
module OtpInput {
  import opened Strings

  /** A cell shows nothing or one character. */
  predicate IsCell(c: string) {
    c == "" || |c| == 1
  }

  /** A cell the handlers may produce: nothing or one decimal digit. */
  predicate IsDigitCell(c: string) {
    c == "" || (|c| == 1 && IsDigit(c[0]))
  }

  predicate DigitCells(cells: seq<string>) {
    forall i :: 0 <= i < |cells| ==> IsDigitCell(cells[i])
  }

  /** `newOtp.join('')`: the code the cells spell. */
  function Code(cells: seq<string>): string {
    Join(cells, "")
  }

  /** The cells the sync effect builds: the first `length` characters of `value`, padded with empty cells. */
  function Padded(value: string, length: nat): (r: seq<string>)
    ensures |r| == length
    ensures forall i :: 0 <= i < length ==> r[i] == (if i < |value| then [value[i]] else "")
  {
    seq(length, i requires 0 <= i < length => if i < |value| then [value[i]] else "")
  }

  /** The cells a paste of `digits` at `start` leaves: consecutive cells from `start`, the rest untouched. */
  function Pasted(cells: seq<string>, digits: string, start: nat): (r: seq<string>)
    ensures |r| == |cells|
    ensures forall i :: 0 <= i < |cells| ==>
      r[i] == (if start <= i < start + |digits| then [digits[i - start]] else cells[i])
  {
    seq(|cells|, i requires 0 <= i < |cells| =>
      if start <= i < start + |digits| then [digits[i - start]] else cells[i])
  }

  /** `Math.min`. */
  function Min(a: int, b: int): int {
    if a <= b then a else b
  }

  /** The digits a paste keeps: `replace(/\D/g, '').slice(0, length)`. */
  function PasteDigits(data: string, length: nat): (r: string)
    ensures |r| <= length && forall k :: 0 <= k < |r| ==> IsDigit(r[k])
    ensures r == Digits(data)[..Min(|Digits(data)|, length)]
  {
    var d := Digits(data);
    d[..Min(|d|, length)]
  }

  /** The keys `handleKeyDown` tells apart. */
  datatype Key = Backspace | ArrowLeft | ArrowRight | OtherKey

  class OtpBuffer {
    const length: nat
    /** The `otp` state: one string per cell. */
    const cells: array<string>
    /** The cell the handlers last moved focus to; -1 before any move. */
    var focus: int
    /** Every value handed to `onChange`, oldest first. */
    var emitted: seq<string>

    predicate Valid()
      reads this, cells
    {
      cells.Length == length && forall i :: 0 <= i < length ==> IsCell(cells[i])
    }

    /** `useState(Array(length).fill(''))`. */
    constructor (length: nat)
      ensures Valid() && fresh(cells)
      ensures this.length == length && cells[..] == seq(length, i => "")
      ensures focus == -1 && emitted == []
    {
      this.length := length;
      cells := new string[length](i => "");
      focus := -1;
      emitted := [];
    }

    /** The effect on `[value, length]`: the cells become `value`'s characters, padded to `length`. */
    method Sync(value: string)
      requires Valid()
      modifies cells
      ensures Valid()
      ensures cells[..] == Padded(value, length)
      ensures DigitCells(cells[..]) <==> forall k :: 0 <= k < Min(|value|, length) ==> IsDigit(value[k])
    {
      var padded := Padded(value, length);
      var i := 0;
      while i < length
        invariant 0 <= i <= length
        invariant cells[..i] == padded[..i]
      {
        cells[i] := padded[i];
        i := i + 1;
      }
      assert cells[..] == cells[..length];
      assert forall k :: 0 <= k < Min(|value|, length) ==> cells[..][k] == [value[k]];
    }

    /** Writes the new cells and hands their code to `onChange`. */
    method Emit()
      modifies this
      ensures emitted == old(emitted) + [Code(cells[..])]
      ensures focus == old(focus)
    {
      emitted := emitted + [Code(cells[..])];
    }

    /** `handlePaste(pastedData, startIndex)`: the kept digits fill consecutive cells from `start`; focus goes to the cell after them, at most the last. */
    method HandlePaste(data: string, start: nat)
      requires Valid() && start < length
      modifies this, cells
      ensures Valid()
      ensures cells[..] == Pasted(old(cells[..]), PasteDigits(data, length), start)
      ensures emitted == old(emitted) + [Code(cells[..])]
      ensures focus == Min(start + |PasteDigits(data, length)|, length - 1)
      ensures DigitCells(old(cells[..])) ==> DigitCells(cells[..])
    {
      var numeric := PasteDigits(data, length);
      ghost var before := cells[..];
      var i := 0;
      while i < |numeric| && start + i < length
        invariant 0 <= i <= |numeric|
        invariant start + i <= length && Valid() && emitted == old(emitted)
        invariant forall j :: 0 <= j < length ==>
          cells[j] == (if start <= j < start + i then [numeric[j - start]] else before[j])
      {
        cells[start + i] := [numeric[i]];
        i := i + 1;
      }
      assert cells[..] == Pasted(before, numeric, start);
      Emit();
      focus := Min(start + |numeric|, length - 1);
    }

    /** `handleChange(index, val)`: no digit clears the cell, one digit fills it and moves on, more are pasted from here. */
    method HandleChange(index: nat, val: string)
      requires Valid() && index < length
      modifies this, cells
      ensures Valid()
      ensures |Digits(val)| == 0 ==>
        cells[..] == old(cells[..])[index := ""] && focus == old(focus)
      ensures |Digits(val)| == 1 ==>
        cells[..] == old(cells[..])[index := Digits(val)]
        && focus == (if index < length - 1 then index + 1 else old(focus))
      ensures |Digits(val)| > 1 ==>
        cells[..] == Pasted(old(cells[..]), PasteDigits(val, length), index)
        && focus == Min(index + |PasteDigits(val, length)|, length - 1)
      ensures emitted == old(emitted) + [Code(cells[..])]
      ensures DigitCells(old(cells[..])) ==> DigitCells(cells[..])
    {
      var numeric := Digits(val);
      if |numeric| == 0 {
        cells[index] := "";
        Emit();
        return;
      }
      if |numeric| == 1 {
        cells[index] := numeric;
        Emit();
        if index < length - 1 {
          focus := index + 1;
        }
      } else {
        DigitsOfDigits(numeric);
        HandlePaste(numeric, index);
      }
    }

    /** `handleKeyDown(index, key)`: Backspace clears a filled cell or steps back from an empty one; arrows move focus. */
    method HandleKeyDown(index: nat, key: Key)
      requires Valid() && index < length
      modifies this, cells
      ensures Valid()
      ensures key == Backspace && old(cells[index]) != "" ==>
        cells[..] == old(cells[..])[index := ""] && focus == old(focus)
        && emitted == old(emitted) + [Code(cells[..])]
      ensures key == Backspace && old(cells[index]) == "" ==>
        cells[..] == old(cells[..]) && emitted == old(emitted)
        && focus == (if index > 0 then index - 1 else old(focus))
      ensures key != Backspace ==> cells[..] == old(cells[..]) && emitted == old(emitted)
      ensures key == ArrowLeft ==> focus == (if index > 0 then index - 1 else old(focus))
      ensures key == ArrowRight ==> focus == (if index < length - 1 then index + 1 else old(focus))
      ensures key == OtherKey ==> focus == old(focus)
      ensures DigitCells(old(cells[..])) ==> DigitCells(cells[..])
    {
      if key == Backspace {
        if cells[index] == "" {
          if index > 0 {
            focus := index - 1;
          }
        } else {
          cells[index] := "";
          Emit();
        }
      } else if key == ArrowLeft && index > 0 {
        focus := index - 1;
      } else if key == ArrowRight && index < length - 1 {
        focus := index + 1;
      }
    }
  }

  // ----- What the handlers promise about the cells -----

  /** Syncing shows exactly the first `length` characters of `value`. */
  lemma {:induction false} PaddedCode(value: string, length: nat)
    ensures Code(Padded(value, length)) == value[..Min(|value|, length)]
    decreases length
  {
    if length > 0 {
      var p := Padded(value, length);
      var q := Padded(value, length - 1);
      assert p[..length - 1] == q;
      assert p == q + [p[length - 1]];
      PaddedCode(value, length - 1);
      CodeSnoc(q, p[length - 1]);
      assert Code(p) == Code(q) + p[length - 1];
      if length <= |value| {
        assert p[length - 1] == [value[length - 1]];
        calc {
          Code(p);
          Code(q) + [value[length - 1]];
          value[..length - 1] + [value[length - 1]];
          { assert value[..length] == value[..length - 1] + [value[length - 1]]; }
          value[..length];
        }
      } else {
        assert p[length - 1] == "";
        calc {
          Code(p);
          Code(q) + "";
          { assert Min(|value|, length - 1) == |value|; }
          value[..|value|];
        }
      }
    }
  }

  /** Appending a cell appends its text to the code. */
  lemma {:induction false} CodeSnoc(cells: seq<string>, c: string)
    ensures Code(cells + [c]) == Code(cells) + c
    decreases |cells|
  {
    if |cells| == 0 {
      assert cells + [c] == [c];
    } else if |cells| == 1 {
      assert cells + [c] == [cells[0], c];
      assert Join([cells[0], c], "") == cells[0] + "" + Join([c], "");
      assert cells[0] + "" == cells[0];
    } else {
      assert (cells + [c])[1..] == cells[1..] + [c];
      CodeSnoc(cells[1..], c);
    }
  }

  /** Syncing from a string of digits gives digit cells. */
  lemma PaddedDigits(value: string, length: nat)
    requires forall k :: 0 <= k < |value| ==> IsDigit(value[k])
    ensures DigitCells(Padded(value, length))
  {
  }

  /** A paste keeps the cells digit-only and writes no cell outside `start .. start + |digits|`. */
  lemma PasteKeepsDigits(cells: seq<string>, digits: string, start: nat)
    requires DigitCells(cells)
    requires forall k :: 0 <= k < |digits| ==> IsDigit(digits[k])
    ensures DigitCells(Pasted(cells, digits, start))
  {
  }

  /** Clearing or setting one cell to a digit keeps the cells digit-only. */
  lemma UpdateKeepsDigits(cells: seq<string>, index: nat, c: string)
    requires DigitCells(cells) && index < |cells| && IsDigitCell(c)
    ensures DigitCells(cells[index := c])
  {
  }

  /** A full-length paste at the first cell replaces the whole code. */
  lemma {:induction false} PasteWholeCode(cells: seq<string>, digits: string)
    requires |digits| == |cells|
    ensures Code(Pasted(cells, digits, 0)) == digits
    decreases |cells|
  {
    if |cells| > 0 {
      var n := |cells| - 1;
      var p := Pasted(cells, digits, 0);
      assert p[..n] == Pasted(cells[..n], digits[..n], 0);
      PasteWholeCode(cells[..n], digits[..n]);
      assert p == p[..n] + [p[n]];
      CodeSnoc(p[..n], p[n]);
      assert digits == digits[..n] + [digits[n]];
    }
  }

  /** A paste never reaches past the last cell, and fills as many cells as there are digits and room. */
  lemma PasteExtent(cells: seq<string>, digits: string, start: nat)
    requires start <= |cells|
    ensures var r := Pasted(cells, digits, start);
      && (forall i :: 0 <= i < start ==> r[i] == cells[i])
      && (forall i :: start + |digits| <= i < |cells| ==> r[i] == cells[i])
      && (forall i :: start <= i < Min(start + |digits|, |cells|) ==> r[i] == [digits[i - start]])
  {
  }
}
