/**
 * Operators: an 8-bit flag set with bitwise union and intersection, the
 * operator table (each operator's text, the token it is read from and its
 * flags), the operator record and its text.
 */
module Operators {
  import opened Wrappers
  import opened Tokens
  import Lexing

  /** A flag set: the `uint8_t` value of `Flag`. */
  type Flag = bv8

  const FlagNone: Flag := 0
  const FlagAssign: Flag := 1
  const FlagBinary: Flag := 2
  const FlagUnary: Flag := 4
  const FlagLogical: Flag := 8

  /** The flag set whose only bit is bit `i`. */
  function Bit(i: nat): Flag
    requires i < 8
  {
    match i
    case 0 => 1
    case 1 => 2
    case 2 => 4
    case 3 => 8
    case 4 => 16
    case 5 => 32
    case 6 => 64
    case _ => 128
  }

  /** Bit `i` of the flag set is set. */
  predicate Has(f: Flag, i: nat)
    requires i < 8
  {
    f & Bit(i) != 0
  }

  /** `operator|`: the union of the two sets of bits. */
  function Or(a: Flag, b: Flag): (r: Flag)
    ensures forall i: nat :: i < 8 ==> (Has(r, i) <==> Has(a, i) || Has(b, i))
  {
    OrBits(a, b);
    a | b
  }

  lemma OrBits(a: Flag, b: Flag)
    ensures forall i: nat :: i < 8 ==> (Has(a | b, i) <==> Has(a, i) || Has(b, i))
  {
    forall i: nat | i < 8 ensures Has(a | b, i) <==> Has(a, i) || Has(b, i) {
      MaskBits(a, b, Bit(i));
    }
  }

  /** For a one-bit mask, union and intersection act bit by bit. */
  lemma MaskBits(a: Flag, b: Flag, m: Flag)
    requires m == 1 || m == 2 || m == 4 || m == 8 || m == 16 || m == 32 || m == 64 || m == 128
    ensures (a | b) & m != 0 <==> a & m != 0 || b & m != 0
    ensures (a & b) & m != 0 <==> a & m != 0 && b & m != 0
  {
  }

  /** `operator&`: the intersection of the two sets of bits. */
  function And(a: Flag, b: Flag): (r: Flag)
    ensures forall i: nat :: i < 8 ==> (Has(r, i) <==> Has(a, i) && Has(b, i))
  {
    AndBits(a, b);
    a & b
  }

  lemma AndBits(a: Flag, b: Flag)
    ensures forall i: nat :: i < 8 ==> (Has(a & b, i) <==> Has(a, i) && Has(b, i))
  {
    forall i: nat | i < 8 ensures Has(a & b, i) <==> Has(a, i) && Has(b, i) {
      MaskBits(a, b, Bit(i));
    }
  }

  /** Two flag sets with the same bits are equal. */
  lemma BitsDetermine(a: Flag, b: Flag)
    requires forall i: nat :: i < 8 ==> (Has(a, i) <==> Has(b, i))
    ensures a == b
  {
    assert Has(a, 0) == Has(b, 0) && Has(a, 1) == Has(b, 1) && Has(a, 2) == Has(b, 2) && Has(a, 3) == Has(b, 3);
    assert Has(a, 4) == Has(b, 4) && Has(a, 5) == Has(b, 5) && Has(a, 6) == Has(b, 6) && Has(a, 7) == Has(b, 7);
  }

  /** `None` has no bit; each named flag has exactly its own bit, so the
      four are distinct single bits. */
  lemma FlagBits()
    ensures forall i: nat :: i < 8 ==> !Has(FlagNone, i)
    ensures forall i: nat :: i < 8 ==> (Has(FlagAssign, i) <==> i == 0)
    ensures forall i: nat :: i < 8 ==> (Has(FlagBinary, i) <==> i == 1)
    ensures forall i: nat :: i < 8 ==> (Has(FlagUnary, i) <==> i == 2)
    ensures forall i: nat :: i < 8 ==> (Has(FlagLogical, i) <==> i == 3)
  {
    forall i: nat | i < 8
      ensures !Has(FlagNone, i)
      ensures Has(FlagAssign, i) <==> i == 0
      ensures Has(FlagBinary, i) <==> i == 1
      ensures Has(FlagUnary, i) <==> i == 2
      ensures Has(FlagLogical, i) <==> i == 3
    {
      if i == 0 {} else if i == 1 {} else if i == 2 {} else if i == 3 {}
      else if i == 4 {} else if i == 5 {} else if i == 6 {} else {}
    }
  }

  /** Union is commutative, associative and idempotent with None as identity. */
  lemma OrLaws(a: Flag, b: Flag, c: Flag)
    ensures Or(a, b) == Or(b, a)
    ensures Or(Or(a, b), c) == Or(a, Or(b, c))
    ensures Or(a, a) == a
    ensures Or(a, FlagNone) == a
  {
    BitsDetermine(Or(a, b), Or(b, a));
    BitsDetermine(Or(Or(a, b), c), Or(a, Or(b, c)));
    BitsDetermine(Or(a, a), a);
    FlagBits();
    BitsDetermine(Or(a, FlagNone), a);
  }

  /** Intersection absorbs a union and None annihilates. */
  lemma AndLaws(a: Flag, b: Flag)
    ensures And(Or(a, b), b) == b
    ensures And(a, FlagNone) == FlagNone
  {
    BitsDetermine(And(Or(a, b), b), b);
    FlagBits();
    BitsDetermine(And(a, FlagNone), FlagNone);
  }

  /** The operator kinds, in the order the operator list declares them. */
  datatype OpKind = Add | Sub | Mul | Div | Exp | Assign

  /** The operator list: each operator with its text, its token kind and
      its flags. */
  const OperatorTable: seq<(OpKind, string, Kind, Flag)> := [
    (Add, "+", Plus, FlagBinary),
    (Sub, "-", Minus, FlagBinary | FlagUnary),
    (Mul, "*", Star, FlagBinary),
    (Div, "/", Slash, FlagBinary),
    (Exp, "**", StarStar, FlagBinary),
    (Assign, "=", Equal, FlagAssign)
  ]

  /** The row of the operator list that declares `k`. */
  function OpIndex(k: OpKind): (i: nat)
    ensures i < |OperatorTable| && OperatorTable[i].0 == k
  {
    match k
    case Add => 0
    case Sub => 1
    case Mul => 2
    case Div => 3
    case Exp => 4
    case Assign => 5
  }

  /** The text of an operator. */
  function OpRepr(k: OpKind): (r: string)
    ensures r == OperatorTable[OpIndex(k)].1
  {
    match k
    case Add => "+"
    case Sub => "-"
    case Mul => "*"
    case Div => "/"
    case Exp => "**"
    case Assign => "="
  }

  /** The token kind an operator is read from. */
  function OpToken(k: OpKind): (t: Kind)
    ensures t == OperatorTable[OpIndex(k)].2
  {
    match k
    case Add => Plus
    case Sub => Minus
    case Mul => Star
    case Div => Slash
    case Exp => StarStar
    case Assign => Equal
  }

  /** `get_flag_from_kind`: the flags the operator list gives `k`. */
  function FlagsOf(k: OpKind): (f: Flag)
    ensures f == OperatorTable[OpIndex(k)].3
  {
    match k
    case Add => FlagBinary
    case Sub => Or(FlagBinary, FlagUnary)
    case Mul => FlagBinary
    case Div => FlagBinary
    case Exp => FlagBinary
    case Assign => FlagAssign
  }

  /** The operator list declares each operator once. */
  lemma OperatorsClosed()
    ensures |OperatorTable| == 6
    ensures forall k: OpKind :: (k, OpRepr(k), OpToken(k), FlagsOf(k)) in OperatorTable
    ensures forall i, j :: 0 <= i < j < |OperatorTable| ==> OperatorTable[i].0 != OperatorTable[j].0
  {
    forall k: OpKind ensures (k, OpRepr(k), OpToken(k), FlagsOf(k)) in OperatorTable {
      assert OperatorTable[OpIndex(k)] == (k, OpRepr(k), OpToken(k), FlagsOf(k));
    }
  }

  /** Sub is binary and unary, Assign is only an assignment, every other
      operator is only binary, and no operator is logical. */
  lemma OperatorFlags(k: OpKind)
    ensures k == Sub ==> FlagsOf(k) == Or(FlagBinary, FlagUnary)
    ensures k == Assign ==> FlagsOf(k) == FlagAssign
    ensures k != Sub && k != Assign ==> FlagsOf(k) == FlagBinary
    ensures !Has(FlagsOf(k), 3)
    ensures Has(FlagsOf(k), 0) <==> k == Assign
    ensures Has(FlagsOf(k), 1) <==> k != Assign
    ensures Has(FlagsOf(k), 2) <==> k == Sub
  {
    FlagBits();
  }

  /** An operator's text is the source spelling of the token it is read
      from, and different operators are read from different tokens. */
  lemma OperatorSpelledByToken(k: OpKind, k': OpKind)
    ensures Lexing.Spelling(OpToken(k)) == Some(OpRepr(k))
    ensures OpToken(k) == OpToken(k') ==> k == k'
  {
  }

  /** An operator: its kind and flags. */
  datatype Operator = Operator(kind: OpKind, flags: Flag)

  /** `Operator(kind)`: the flags are those the operator list gives. */
  function NewOperator(k: OpKind): (op: Operator)
    ensures op.kind == k && op.flags == OperatorTable[OpIndex(k)].3
  {
    Operator(k, FlagsOf(k))
  }

  /** The text of an operator: its repr between `op(` and `)`. */
  function OperatorText(op: Operator): (r: string)
    ensures |r| == |OpRepr(op.kind)| + 4
    ensures r[..3] == "op(" && r[|r| - 1] == ')' && r[3..|r| - 1] == OpRepr(op.kind)
  {
    "op(" + OpRepr(op.kind) + ")"
  }

  /** The text tells the operator kinds apart. */
  lemma OperatorTextInjective(a: Operator, b: Operator)
    requires OperatorText(a) == OperatorText(b)
    ensures a.kind == b.kind
  {
    var ta, tb := OperatorText(a), OperatorText(b);
    assert OpRepr(a.kind) == ta[3..|ta| - 1] == tb[3..|tb| - 1] == OpRepr(b.kind);
  }
}
