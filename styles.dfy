/** `handleStyleChange` (src/App.js:79-85): ticking a style checkbox. */
module Styles {
  import opened Sequences

  /** The new style selection after the checkbox for `style` changes: a
      selected style is removed, every copy of it; an unselected one is
      appended at the end. */
  function ToggleStyle(styles: seq<string>, style: string): (r: seq<string>)
    ensures style in styles ==> style !in r && IsSubsequence(r, styles)
    ensures style in styles ==> forall s :: s != style ==> multiset(r)[s] == multiset(styles)[s]
    ensures style !in styles ==> r == styles + [style]
  {
    if style in styles then Filter(styles, s => s != style) else styles + [style]
  }

  /** Toggling flips whether `style` is selected and leaves every other style alone. */
  lemma ToggleFlips(styles: seq<string>, style: string, other: string)
    ensures style in ToggleStyle(styles, style) <==> style !in styles
    ensures other != style ==> (other in ToggleStyle(styles, style) <==> other in styles)
  {
    var r := ToggleStyle(styles, style);
    if style in styles && other != style {
      assert other in styles <==> multiset(styles)[other] > 0;
      assert other in r <==> multiset(r)[other] > 0;
    }
  }

  /** Toggling a style that was not selected twice gives back the very same
      selection. */
  lemma ToggleTwiceRestores(styles: seq<string>, style: string)
    requires style !in styles
    ensures ToggleStyle(ToggleStyle(styles, style), style) == styles
  {
    var f := (s: string) => s != style;
    FilterConcat(styles, [style], f);
    FilterAll(styles, f);
    assert Filter([style], f) == [];
  }

  /** Toggling any style twice gives back the same set of selected styles. */
  lemma ToggleTwiceSameSet(styles: seq<string>, style: string)
    ensures forall s :: s in ToggleStyle(ToggleStyle(styles, style), style) <==> s in styles
  {
    forall s ensures s in ToggleStyle(ToggleStyle(styles, style), style) <==> s in styles {
      ToggleFlips(styles, style, s);
      ToggleFlips(ToggleStyle(styles, style), style, s);
    }
  }
}
