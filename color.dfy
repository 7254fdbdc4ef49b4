/** The colour spells: `spChooseColor` (edit one colour), `spSetAllColor`
    (give every colour of an array one chosen colour) and `spSetReplaceColor`
    (replace, in a colour array, every colour equal to a chosen entry).

    Colour values are an abstract type `T` with equality; the colour wheel
    is a function parameter `choose` from the current colour to the picked
    one, and the replace dialog's answer is an input. */
module ColorSpells {
  import opened Wrappers

  /** The value type of the selected item. */
  datatype ColorType = TColor3 | TColor4 | TByteColor4 | TOther

  /** `spChooseColor::cast`: a Color3, Color4 or ByteColor4 item gets the
      colour picked starting from its current colour; any other item is left
      as it is (`None`: nothing is written). */
  function ChooseColor<T>(typ: ColorType, current: T, choose: T -> T): (written: Option<T>)
    ensures written.Some? <==> typ != TOther
    ensures written.Some? ==> written.value == choose(current)
  {
    match typ
    case TColor3 => Some(choose(current))
    case TColor4 => Some(choose(current))
    case TByteColor4 => Some(choose(current))
    case TOther => None
  }

  /** `spSetAllColor::cast`: for a Color3 or Color4 array, the colour picked
      starting from the first entry is written to every entry; arrays of
      any other type (ByteColor4 included) are left as they are. The
      spell applies only to arrays with a first entry. */
  function SetAllColor<T>(typ: ColorType, colors: seq<T>, choose: T -> T): (written: Option<seq<T>>)
    requires |colors| > 0
    ensures written.Some? <==> typ in {TColor3, TColor4}
    ensures written.Some? ==> |written.value| == |colors|
    ensures written.Some? ==> forall i :: 0 <= i < |colors| ==> written.value[i] == choose(colors[0])
  {
    if typ == TColor3 || typ == TColor4 then
      Some(seq(|colors|, _ => choose(colors[0])))
    else None
  }

  /** The value a `QSpinBox` with range `lo..hi` holds after the user asked
      for `requested`: values outside the range are clamped, and a range
      whose maximum is below its minimum only admits the minimum. */
  function SpinBoxValue(requested: int, lo: int, hi: int): (v: int)
    ensures lo <= v && (v == lo || v <= hi)
    ensures lo <= requested <= hi ==> v == requested
  {
    if requested < lo || hi < lo then lo
    else if requested > hi then hi
    else requested
  }

  /** The replacement specification: every entry equal to `search` becomes
      `repl`, every other entry stays. */
  function Replaced<T(==)>(s: seq<T>, search: T, repl: T): seq<T> {
    seq(|s|, i requires 0 <= i < |s| => if s[i] == search then repl else s[i])
  }

  /** The replace loop of `spSetReplaceColor::cast`, in place on the copied
      colour array: the search colour is read once, at `idx`, before the
      loop. */
  method ReplaceInPlace<T(==)>(colors: array<T>, idx: nat, repl: T)
    requires idx < colors.Length
    modifies colors
    ensures colors[..] == Replaced(old(colors[..]), old(colors[idx]), repl)
  {
    var searchColor := colors[idx];
    for i := 0 to colors.Length
      invariant colors[..i] == Replaced(old(colors[..i]), searchColor, repl)
      invariant colors[i..] == old(colors[i..])
    {
      assert colors[i] == old(colors[i]) by {
        assert colors[i..][0] == old(colors[i..])[0];
      }
      if colors[i] == searchColor {
        colors[i] := repl;
      }
      assert old(colors[..i + 1]) == old(colors[..i]) + [old(colors[i])];
    }
    assert colors[..colors.Length] == colors[..];
    assert old(colors[..colors.Length]) == old(colors[..]);
  }

  /** `spSetReplaceColor::cast`. `dialog` is the answer of the search dialog:
      `None` when it is cancelled, otherwise the requested search index and
      the replacement colour. The spin box ranges over `0..|colors| - 1`;
      the spell applies only to arrays with a first entry. The new array is
      returned when it is written back, `None` when nothing is written. */
  method SetReplaceColor<T(==)>(typ: ColorType, colors: seq<T>, dialog: Option<(int, T)>)
    returns (written: Option<seq<T>>)
    requires |colors| > 0
    ensures written.Some? <==> typ in {TColor3, TColor4} && dialog.Some?
    ensures written.Some? ==>
      var idx := SpinBoxValue(dialog.value.0, 0, |colors| - 1);
      0 <= idx < |colors| && written.value == Replaced(colors, colors[idx], dialog.value.1)
  {
    if typ != TColor3 && typ != TColor4 {
      return None;
    }
    if dialog.None? {
      return None;
    }
    var idx := SpinBoxValue(dialog.value.0, 0, |colors| - 1);
    var a := new T[|colors|](i requires 0 <= i < |colors| => colors[i]);
    assert a[..] == colors;
    ReplaceInPlace(a, idx, dialog.value.1);
    written := Some(a[..]);
  }

  /** The replacement keeps the length, turns exactly the entries equal to
      the search colour into the replacement and leaves every other entry
      alone. */
  lemma ReplacedExactly<T>(s: seq<T>, search: T, repl: T)
    ensures |Replaced(s, search, repl)| == |s|
    ensures forall i :: 0 <= i < |s| && s[i] == search ==> Replaced(s, search, repl)[i] == repl
    ensures forall i :: 0 <= i < |s| && s[i] != search ==> Replaced(s, search, repl)[i] == s[i]
  {
  }

  /** The chosen entry itself is replaced. */
  lemma ChosenEntryReplaced<T>(s: seq<T>, idx: nat, repl: T)
    requires idx < |s|
    ensures Replaced(s, s[idx], repl)[idx] == repl
  {
  }

  /** After the replacement the search colour is gone, unless it is the
      replacement itself. */
  lemma SearchColorGone<T>(s: seq<T>, search: T, repl: T)
    requires search != repl
    ensures search !in Replaced(s, search, repl)
  {
  }

  /** Replacing twice with the same colours changes nothing more. */
  lemma ReplacedIdempotent<T>(s: seq<T>, search: T, repl: T)
    ensures Replaced(Replaced(s, search, repl), search, repl) == Replaced(s, search, repl)
  {
  }

  /** The search index always names an entry: the spin box keeps it within
      `0..|colors| - 1` whatever was typed. */
  lemma SearchIndexInRange(requested: int, size: nat)
    requires size > 0
    ensures 0 <= SpinBoxValue(requested, 0, size - 1) < size
  {
  }
}
