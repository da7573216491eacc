/**
 * `flow_name_neat`: turns a fully qualified flow name into a short label,
 * `Outer(Inner)` for a name that ends in a nested component and the bare
 * class name otherwise.
 */
module FlowNames {
  import opened Wrappers
  import opened Strings

  /** The name ends, after `strip()`, in `))`: it is read as a nested component. */
  predicate IsNested(name: string) {
    EndsWith(Strip(name), "))")
  }

  /** `name.split('(')[-2]` and `name.split('(')[-1]`, reduced to their last dotted segment. */
  function OuterLabel(pieces: seq<string>): string
    requires |pieces| >= 2
  {
    LastSegment(pieces[|pieces| - 2], '.')
  }

  function InnerLabel(pieces: seq<string>): string
    requires |pieces| >= 1
  {
    LastSegment(Last(pieces), '.')
  }

  /**
   * `flow_name_neat` exactly as written; `None` where indexing `[-2]` raises
   * IndexError, which happens exactly for a nested name without a `(`. A
   * plain name gives a label without `.` and without `)`.
   */
  function FlowNameNeatAsWritten(name: string): (r: Option<string>)
    ensures r.Some? <==> !IsNested(name) || '(' in name
    ensures !IsNested(name) ==> r.Some? && '.' !in r.value && ')' !in r.value
  {
    SplitSingle(name, "(");
    ContainsChar(name, '(');
    if IsNested(name) then
      var pieces := Split(name, "(");
      if |pieces| < 2 then None
      else Some(Split(OuterLabel(pieces), "(")[0] + "(" + InnerLabel(pieces) + ")")
    else Some(RemoveChar(LastSegment(name, '.'), ')'))
  }

  /**
   * The same label with the closing brackets of the inner part removed, as
   * the other branch removes them: it fails exactly where the original does,
   * and no label ends in `))`.
   */
  function FlowNameNeat(name: string): (r: Option<string>)
    ensures r.Some? <==> !IsNested(name) || '(' in name
    ensures !IsNested(name) ==> r.Some? && '.' !in r.value && ')' !in r.value
    ensures r.Some? ==> !EndsWith(r.value, "))")
  {
    SplitSingle(name, "(");
    ContainsChar(name, '(');
    if IsNested(name) then
      var pieces := Split(name, "(");
      if |pieces| < 2 then None
      else (
        var inner := RemoveChar(InnerLabel(pieces), ')');
        SingleClosingBracket(Split(OuterLabel(pieces), "(")[0], inner);
        Some(Split(OuterLabel(pieces), "(")[0] + "(" + inner + ")"))
    else (
      var plain := RemoveChar(LastSegment(name, '.'), ')');
      NoClosingBracketAtEnd(plain);
      Some(plain))
  }

  /** No piece of `name.split('(')`, nor its last dotted segment, holds a `(`. */
  lemma PieceSegmentLacksParen(name: string, k: nat)
    requires k < |Split(name, "(")|
    ensures '(' !in LastSegment(Split(name, "(")[k], '.')
  {
    var piece := Split(name, "(")[k];
    SplitPiecesLackSeparator(name, "(");
    ContainsChar(piece, '(');
    SuffixChars(piece, LastSegment(piece, '.'), '(');
  }

  /** The inner `.split('(')[0]` returns its argument unchanged. */
  lemma InnerSplitIsIdentity(name: string, k: nat)
    requires k < |Split(name, "(")|
    ensures Split(LastSegment(Split(name, "(")[k], '.'), "(")[0] == LastSegment(Split(name, "(")[k], '.')
  {
    var seg := LastSegment(Split(name, "(")[k], '.');
    PieceSegmentLacksParen(name, k);
    ContainsChar(seg, '(');
    SplitSingle(seg, "(");
  }

  /**
   * In the nested branch the label is the last dotted segment of the
   * second-to-last `(`-piece, a `(`, the last dotted segment of the final
   * piece, and a `)`.
   */
  lemma NestedBranchShape(name: string)
    requires IsNested(name) && '(' in name
    ensures |Split(name, "(")| >= 2
    ensures FlowNameNeatAsWritten(name) ==
      Some(OuterLabel(Split(name, "(")) + "(" + InnerLabel(Split(name, "(")) + ")")
  {
    var pieces := Split(name, "(");
    assert |pieces| >= 2 by {
      SplitSingle(name, "(");
      ContainsChar(name, '(');
    }
    InnerSplitIsIdentity(name, |pieces| - 2);
  }

  /** Otherwise the label is the text after the last `.`, with every `)` removed: no `.` and no `)` remain. */
  lemma PlainBranchShape(name: string)
    requires !IsNested(name)
    ensures FlowNameNeatAsWritten(name) == Some(RemoveChar(Last(RSplitOnce(name, '.')), ')'))
    ensures '.' !in FlowNameNeatAsWritten(name).value && ')' !in FlowNameNeatAsWritten(name).value
    ensures FlowNameNeat(name) == FlowNameNeatAsWritten(name)
  {
    LastSegmentIsRSplitTail(name, '.');
  }

  /**
   * As written, a nested name that ends in `))` keeps both brackets in its
   * inner part, so the label ends in `)))`: `a.Outer(b.Inner))` becomes
   * `Outer(Inner)))`.
   */
  lemma AsWrittenKeepsInnerBrackets(name: string)
    requires EndsWith(name, "))") && '(' in name
    ensures FlowNameNeatAsWritten(name).Some? && EndsWith(FlowNameNeatAsWritten(name).value, ")))")
  {
    StripKeepsSuffix(name, "))");
    NestedBranchShape(name);
    var pieces := Split(name, "(");
    assert Last(pieces) == LastSegment(name, '(');
    LastSegmentKeepsSuffix(name, '(', "))");
    LastSegmentKeepsSuffix(Last(pieces), '.', "))");
    BracketsAfterInner(OuterLabel(pieces), InnerLabel(pieces));
  }

  lemma BracketsAfterInner(outer: string, inner: string)
    requires EndsWith(inner, "))")
    ensures EndsWith(outer + "(" + inner + ")", ")))")
  {
    var r := outer + "(" + inner + ")";
    assert r[|r| - 3..] == inner[|inner| - 2..] + ")";
  }

  /** A label closed by `)` after a part without `)` does not end in `))`. */
  lemma SingleClosingBracket(outer: string, inner: string)
    requires ')' !in inner
    ensures !EndsWith(outer + "(" + inner + ")", "))")
  {
    var r := outer + "(" + inner + ")";
    if |inner| > 0 {
      assert r[|r| - 2] == inner[|inner| - 1];
    } else {
      assert r[|r| - 2] == '(';
    }
    assert r[|r| - 2..] == [r[|r| - 2], r[|r| - 1]];
  }

  /** A string without `)` does not end in `))`. */
  lemma NoClosingBracketAtEnd(s: string)
    requires ')' !in s
    ensures !EndsWith(s, "))")
  {
    if |s| >= 2 {
      assert s[|s| - 1] in s;
    }
  }

  /** Corrected, a nested label ends in exactly one `)`, and the inner part holds no bracket or `.`. */
  lemma NeatNestedLabelIsBalanced(name: string)
    requires IsNested(name) && '(' in name
    ensures FlowNameNeat(name).Some?
    ensures var pieces := Split(name, "(");
      var inner := RemoveChar(InnerLabel(pieces), ')');
      && FlowNameNeat(name).value == OuterLabel(pieces) + "(" + inner + ")"
      && '(' !in inner && ')' !in inner && '.' !in inner
      && '(' !in OuterLabel(pieces) && '.' !in OuterLabel(pieces)
      && !EndsWith(FlowNameNeat(name).value, "))")
  {
    var pieces := Split(name, "(");
    assert |pieces| >= 2 by {
      SplitSingle(name, "(");
      ContainsChar(name, '(');
    }
    InnerSplitIsIdentity(name, |pieces| - 2);
    PieceSegmentLacksParen(name, |pieces| - 1);
    PieceSegmentLacksParen(name, |pieces| - 2);
    SingleClosingBracket(OuterLabel(pieces), RemoveChar(InnerLabel(pieces), ')'));
  }
}
