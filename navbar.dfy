/**
 * `removeReadmeNavbarZindex` of the preview revision: the README navbar's
 * `style` attribute is rewritten with `oldStyle.replace(/z-.*;/, '')`.
 *
 * A non-global `replace` removes only the first match. The engine tries start
 * positions from the left; at the first position where `z-` is followed, on
 * the same line, by some `;`, the greedy `.*` makes the match end at the LAST
 * such `;` before the next line terminator.
 */
module NavbarStyle {
  import opened Wrappers
  import opened Text

  /** `/z-.*;/` matches `s[i..q + 1]`: `z-` at `i`, `.*` over `s[i + 2..q]`, `;` at `q`. */
  ghost predicate ZIndexSpan(s: string, i: nat, q: nat) {
    OccursAt(s, i, "z-") && i + 2 <= q < |s| && s[q] == ';' && NoLineTerminatorIn(s, i + 2, q)
  }

  /** The match `replace` removes: no match starts further left, none from `i` ends further right. */
  ghost predicate FirstZIndexSpan(s: string, i: nat, q: nat) {
    ZIndexSpan(s, i, q)
    && (forall i': nat, q': nat :: i' < i ==> !ZIndexSpan(s, i', q'))
    && (forall q': nat :: q < q' ==> !ZIndexSpan(s, i, q'))
  }

  /** Where the greedy `.*;` run that starts at `k` ends: the last `;` of the line from `k`. */
  function GreedyRunEnd(s: string, k: nat): (q: Option<nat>)
    requires k <= |s|
    decreases |s| - k
    ensures q.Some? ==> k <= q.value < |s| && s[q.value] == ';' && NoLineTerminatorIn(s, k, q.value)
    ensures q.Some? ==> forall q' :: q.value < q' < |s| && s[q'] == ';' ==> !NoLineTerminatorIn(s, k, q')
    ensures q.None? ==> forall q' :: k <= q' < |s| && s[q'] == ';' ==> !NoLineTerminatorIn(s, k, q')
  {
    if k == |s| || IsLineTerminator(s[k]) then None
    else
      match GreedyRunEnd(s, k + 1)
      case Some(q) => Some(q)
      case None => if s[k] == ';' then Some(k) else None
  }

  /** The leftmost match of `/z-.*;/` starting at or after `i`, as (start, index of its `;`). */
  function FindZIndex(s: string, i: nat): (m: Option<(nat, nat)>)
    requires i <= |s|
    decreases |s| - i
    ensures m.Some? ==> i <= m.value.0 && ZIndexSpan(s, m.value.0, m.value.1)
    ensures m.Some? ==> forall i': nat, q': nat :: i <= i' < m.value.0 ==> !ZIndexSpan(s, i', q')
    ensures m.Some? ==> forall q': nat :: m.value.1 < q' ==> !ZIndexSpan(s, m.value.0, q')
    ensures m.None? ==> forall i': nat, q': nat :: i <= i' ==> !ZIndexSpan(s, i', q')
  {
    if i + 2 > |s| then None
    else if OccursAt(s, i, "z-") && GreedyRunEnd(s, i + 2).Some? then Some((i, GreedyRunEnd(s, i + 2).value))
    else FindZIndex(s, i + 1)
  }

  /**
   * `style.replace(/z-.*;/, '')`: without a match the style is returned
   * unchanged; otherwise exactly the first match is cut out and everything
   * before and after it is kept.
   */
  function RemoveZIndex(style: string): (r: string)
    ensures (forall i: nat, q: nat :: !ZIndexSpan(style, i, q)) ==> r == style
    ensures forall i: nat, q: nat :: FirstZIndexSpan(style, i, q) ==> r == style[..i] + style[q + 1..]
  {
    match FindZIndex(style, 0)
    case None => style
    case Some((i, q)) => style[..i] + style[q + 1..]
  }

  /** The README navbar, the element whose `style` attribute is rewritten. */
  class Navbar {
    var style: string

    constructor (style: string)
      ensures this.style == style
    {
      this.style := style;
    }

    /** `removeReadmeNavbarZindex`: the attribute is replaced by its rewrite. */
    method RemoveReadmeNavbarZindex()
      modifies this
      ensures style == RemoveZIndex(old(style))
    {
      var oldStyle := style;
      style := RemoveZIndex(oldStyle);
    }
  }

  /**
   * The greedy `.*` runs to the last `;` of the line: in
   * `<pre>z-<a>;<b>;` everything from `z-` on is removed, the declarations
   * after the z-index in `<b>` included.
   */
  lemma GreedyRemovesThroughLastSemicolon(pre: string, a: string, b: string)
    requires forall k :: 0 <= k < |pre| ==> pre[k] != 'z'
    requires NoLineTerminatorIn(a, 0, |a|) && NoLineTerminatorIn(b, 0, |b|)
    ensures RemoveZIndex(pre + "z-" + a + ";" + b + ";") == pre
  {
    var s := pre + "z-" + a + ";" + b + ";";
    var i, q := |pre|, |s| - 1;
    assert s[i..i + 2] == "z-";
    forall k | i + 2 <= k < q ensures !IsLineTerminator(s[k]) {
      if k < i + 2 + |a| {
        assert s[k] == a[k - i - 2];
      } else if k > i + 2 + |a| {
        assert s[k] == b[k - i - 3 - |a|];
      }
    }
    assert ZIndexSpan(s, i, q);
    forall i': nat, q': nat | i' < i ensures !ZIndexSpan(s, i', q') {
      assert s[i'] == pre[i'];
    }
    assert FirstZIndexSpan(s, i, q);
    assert s[..i] == pre;
  }

  /**
   * Only the first match is removed: a second z-index declaration on a later
   * line survives, and so does the line break between them.
   */
  lemma OnlyFirstMatchRemoved(pre: string, a: string, rest: string)
    requires forall k :: 0 <= k < |pre| ==> pre[k] != 'z'
    requires NoLineTerminatorIn(a, 0, |a|)
    requires forall k :: 0 <= k < |a| ==> a[k] != ';'
    ensures RemoveZIndex(pre + "z-" + a + ";\n" + rest) == pre + "\n" + rest
  {
    var s := pre + "z-" + a + ";\n" + rest;
    var i, q := |pre|, |pre| + 2 + |a|;
    assert s[i..i + 2] == "z-";
    forall k | i + 2 <= k < q ensures !IsLineTerminator(s[k]) {
      assert s[k] == a[k - i - 2];
    }
    assert ZIndexSpan(s, i, q);
    forall i': nat, q': nat | i' < i ensures !ZIndexSpan(s, i', q') {
      assert s[i'] == pre[i'];
    }
    forall q': nat | q < q' ensures !ZIndexSpan(s, i, q') {
      if ZIndexSpan(s, i, q') {
        assert IsLineTerminator(s[q + 1]);
        assert false;
      }
    }
    assert FirstZIndexSpan(s, i, q);
    assert s[..i] == pre;
    assert s[q + 1..] == "\n" + rest;
  }
}
