/**
 * The plain text both cells build by appending one segment per present
 * optional field (fonts and colours of the attributed string left out).
 */
module DisplayText {
  import opened Wrappers

  /** A field's contribution: `prefix + value + suffix` when the value is present, nothing otherwise. */
  datatype Segment = Segment(prefix: string, value: Option<string>, suffix: string)

  function Rendered(seg: Segment): (r: string)
    ensures seg.value.None? ==> r == ""
  {
    match seg.value
    case Some(v) => seg.prefix + v + seg.suffix
    case None => ""
  }

  /** The segments' contributions, appended one after another to an initially empty text. */
  function Compose(segs: seq<Segment>): string
  {
    if segs == [] then "" else Compose(segs[..|segs| - 1]) + Rendered(segs[|segs| - 1])
  }

  /** Appending one more segment appends its contribution. */
  lemma ComposeSnoc(segs: seq<Segment>, seg: Segment)
    ensures Compose(segs + [seg]) == Compose(segs) + Rendered(seg)
  {
    assert (segs + [seg])[..|segs|] == segs;
  }

  lemma {:induction false} ComposeAppend(a: seq<Segment>, b: seq<Segment>)
    ensures Compose(a + b) == Compose(a) + Compose(b)
  {
    if b == [] {
      assert a + b == a;
    } else {
      var init, last := b[..|b| - 1], b[|b| - 1];
      assert b == init + [last];
      assert a + b == (a + init) + [last];
      ComposeSnoc(a + init, last);
      ComposeSnoc(init, last);
      ComposeAppend(a, init);
      Associative(Compose(a), Compose(init), Rendered(last));
    }
  }

  lemma Associative(x: string, y: string, z: string)
    ensures x + y + z == x + (y + z)
  {
  }

  /** The text is empty exactly when every segment contributes nothing. */
  lemma {:induction false} ComposeEmptyIff(segs: seq<Segment>)
    ensures Compose(segs) == "" <==> forall i :: 0 <= i < |segs| ==> Rendered(segs[i]) == ""
  {
    if segs != [] {
      var init := segs[..|segs| - 1];
      var last := segs[|segs| - 1];
      ComposeEmptyIff(init);
      assert |Compose(segs)| == |Compose(init)| + |Rendered(last)|;
      if Compose(segs) == "" {
        forall i | 0 <= i < |segs|
          ensures Rendered(segs[i]) == ""
        {
          if i < |init| {
            assert segs[i] == init[i];
          }
        }
      } else if Compose(init) != "" {
        var j :| 0 <= j < |init| && Rendered(init[j]) != "";
        assert segs[j] == init[j];
      }
    }
  }

  /**
   * When every segment's prefix starts with a newline and some segment is
   * present, the text starts with a newline.
   */
  lemma {:induction false} ComposeStartsWithNewline(segs: seq<Segment>, k: nat)
    requires forall i :: 0 <= i < |segs| ==> |segs[i].prefix| > 0 && segs[i].prefix[0] == '\n'
    requires k < |segs| && segs[k].value.Some?
    ensures |Compose(segs)| > 0 && Compose(segs)[0] == '\n'
  {
    var init := segs[..|segs| - 1];
    var last := segs[|segs| - 1];
    assert forall i :: 0 <= i < |init| ==> init[i] == segs[i];
    if Compose(init) == "" {
      ComposeEmptyIff(init);
      assert k == |segs| - 1;
      assert Rendered(last)[0] == last.prefix[0];
    } else {
      ComposeEmptyIff(init);
      var j :| 0 <= j < |init| && Rendered(init[j]) != "";
      ComposeStartsWithNewline(init, j);
    }
  }

  /** Five segments compose to their five contributions. */
  lemma ComposeFive(a: Segment, b: Segment, c: Segment, d: Segment, e: Segment)
    ensures Compose([a, b, c, d, e]) == Rendered(a) + Rendered(b) + Rendered(c) + Rendered(d) + Rendered(e)
  {
    assert [a, b, c, d, e][..4] == [a, b, c, d];
    assert [a, b, c, d][..3] == [a, b, c];
    assert [a, b, c][..2] == [a, b];
    assert [a, b][..1] == [a];
    assert [a][..0] == [];
    assert Compose([a]) == Rendered(a);
    assert Compose([a, b]) == Rendered(a) + Rendered(b);
    assert Compose([a, b, c]) == Rendered(a) + Rendered(b) + Rendered(c);
    assert Compose([a, b, c, d]) == Rendered(a) + Rendered(b) + Rendered(c) + Rendered(d);
  }
}
