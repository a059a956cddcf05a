/** Parameterised SQL statements: text with `?` placeholders, and the values
    bound to them by position. */
module Statements {
  import opened Common

  /** A piece of statement text: fixed SQL, or one `?` placeholder. */
  datatype Piece = Text(text: string) | Mark

  /** A value bound to a placeholder. */
  datatype Param = IntParam(n: int) | TextParam(t: string)

  /** The statement as the driver receives it. */
  function Render(ps: seq<Piece>): string {
    if |ps| == 0 then "" else (if ps[0].Mark? then "?" else ps[0].text) + Render(ps[1..])
  }

  /** Number of placeholders. */
  function Marks(ps: seq<Piece>): nat {
    if |ps| == 0 then 0 else (if ps[0].Mark? then 1 else 0) + Marks(ps[1..])
  }

  /** No fixed text contains a `?` of its own. */
  predicate PlainText(ps: seq<Piece>) {
    forall i :: 0 <= i < |ps| && ps[i].Text? ==> '?' !in ps[i].text
  }

  lemma {:induction false} MarksConcat(a: seq<Piece>, b: seq<Piece>)
    ensures Marks(a + b) == Marks(a) + Marks(b)
  {
    if |a| == 0 {
      assert a + b == b;
    } else {
      assert (a + b)[1..] == a[1..] + b;
      MarksConcat(a[1..], b);
    }
  }

  lemma PlainTextConcat(a: seq<Piece>, b: seq<Piece>)
    requires PlainText(a) && PlainText(b)
    ensures PlainText(a + b)
  {
    forall i | 0 <= i < |a + b| && (a + b)[i].Text? ensures '?' !in (a + b)[i].text {
      if i >= |a| {
        assert (a + b)[i] == b[i - |a|];
      }
    }
  }

  /** When the fixed text has no `?`, the rendered statement has exactly one
      `?` per placeholder. */
  lemma {:induction false} RenderMarks(ps: seq<Piece>)
    requires PlainText(ps)
    ensures CountChar('?', Render(ps)) == Marks(ps)
  {
    if |ps| > 0 {
      var head := if ps[0].Mark? then "?" else ps[0].text;
      assert PlainText(ps[1..]) by {
        forall i | 0 <= i < |ps[1..]| && ps[1..][i].Text? ensures '?' !in ps[1..][i].text {
          assert ps[1..][i] == ps[i + 1];
        }
      }
      RenderMarks(ps[1..]);
      CountCharConcat('?', head, Render(ps[1..]));
      if ps[0].Mark? {
        assert head == ['?'];
        assert head[1..] == [];
      } else {
        assert '?' !in head;
      }
    }
  }
}
