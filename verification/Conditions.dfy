/** The sixteen condition codes (Intel 64 and IA-32 SDM, Vol. 1, Appendix B) and what they say after a comparison. */
module Conditions {
  import opened Parity
  import opened Machine
  import opened Arithmetic

  /** eval_condition: `code / 2` selects the test, an odd code negates it. */
  function EvalCondition(f: Flags, code: nat): bool
    requires code < 16
  {
    var c := code / 2;
    var cond :=
      if c == 0 then f.of
      else if c == 1 then f.cf
      else if c == 3 then f.cf || f.zf // falls through to Z
      else if c == 2 then f.zf
      else if c == 4 then f.sf
      else if c == 5 then f.pf
      else if c == 7 then f.zf || f.sf != f.of // falls through to L
      else f.sf != f.of;
    if code % 2 == 1 then !cond else cond
  }

  /** The order a condition code names: B, Z, BE, L, LE, and their negations. */
  predicate Ordered(w: Bitness, code: nat, d: nat, s: nat) {
    var c := code / 2;
    var holds :=
      if c == 1 then d < s
      else if c == 2 then d == s
      else if c == 3 then d <= s
      else if c == 6 then Signed(w, d) < Signed(w, s)
      else Signed(w, d) <= Signed(w, s);
    holds == (code % 2 == 0)
  }

  lemma Compared(w: Bitness, d: nat, s: nat)
    requires d < Span(w) && s < Span(w)
    ensures var r := Difference(w, d, s, 0);
      && (r == 0 <==> d == s)
      && (Signed(w, d) - Signed(w, s) != Signed(w, r) <==> (Signed(w, d) < Signed(w, s)) != (Signed(w, r) < 0))
  {
    WrapBelow(d - s, Span(w));
  }

  /** Theorem: after cmp or sub, the order conditions are the integer comparisons of the operands. */
  lemma ConditionsOrder(f: Flags, w: Bitness, d: nat, s: nat, code: nat)
    requires d < Span(w) && s < Span(w)
    requires 2 <= code < 8 || 12 <= code < 16
    ensures EvalCondition(SubFlags(f, w, d, s, 0), code) == Ordered(w, code, d, s)
  {
    hide Difference;
    Compared(w, d, s);
  }

  /** Theorem: O, S and P say whether the signed difference overflows, is negative, and has an even low byte. */
  lemma ConditionsResult(f: Flags, w: Bitness, d: nat, s: nat, code: nat)
    requires d < Span(w) && s < Span(w) && (code < 2 || 8 <= code < 12)
    ensures var r := (d - s) % Span(w); var x := Signed(w, d) - Signed(w, s);
      EvalCondition(SubFlags(f, w, d, s, 0), code) == ((code % 2 == 0) ==
        if code < 2 then x < -(Span(w) / 2) || x >= Span(w) / 2
        else if code < 10 then 2 * r >= Span(w)
        else Ones(8, r % 0x100) % 2 == 0)
  {
    hide Ones;
    WrapBelow(d - s, Span(w));
  }
}
