/** Object references (unbound dotted paths naming a table or a column) and the
    simple expressions that comparisons on them build. */
module ObjectReferences {
  import opened Results

  /** A literal value that a query binds as a parameter. */
  datatype Value =
    | Int(i: int)
    | Str(s: string)
    | Date(year: int, month: int, day: int)
    | DbNull

  /** A name with an optional owner (the parent segment of a dotted path) and an
      optional alias. Being an inductive datatype, an owner chain is finite and
      never cyclic. */
  datatype ObjectReference = ObjectReference(name: string, owner: Option<ObjectReference>, alias: Option<string>)

  /** One segment of a reference's path, as structural equality sees it. */
  datatype Segment = Segment(name: string, alias: Option<string>)

  /** `new ObjectReference(name)`: a top-level reference. */
  function NewReference(name: string): (r: ObjectReference)
    ensures r.owner.None? && GetName(r) == name
  {
    ObjectReference(name, None, None)
  }

  /** `new ObjectReference(name, owner)`. */
  function OwnedBy(name: string, owner: ObjectReference): (r: ObjectReference)
    ensures Segments(r) == Segments(owner) + [Segment(name, None)]
  {
    ObjectReference(name, Some(owner), None)
  }

  /** `Db.table.column`: a column reference owned by a top-level table reference. */
  function ColumnOf(table: string, column: string): ObjectReference {
    OwnedBy(column, NewReference(table))
  }

  /** `reference.As(alias)`: the same path with an alias on its last segment. */
  function As(r: ObjectReference, alias: string): (a: ObjectReference)
    ensures GetName(a) == GetName(r) && a.owner == r.owner && AliasOrName(a) == alias
  {
    r.(alias := Some(alias))
  }

  function GetName(r: ObjectReference): string {
    r.name
  }

  /** The name a reference is known by in a query: its alias when it has one. */
  function AliasOrName(r: ObjectReference): string {
    match r.alias
    case Some(a) => a
    case None => r.name
  }

  /** The path of a reference, root segment first. */
  function Segments(r: ObjectReference): (s: seq<Segment>)
    ensures |s| >= 1 && s[|s| - 1] == Segment(r.name, r.alias)
    ensures r.owner.None? <==> |s| == 1
    decreases r
  {
    match r.owner
    case None => [Segment(r.name, r.alias)]
    case Some(o) => Segments(o) + [Segment(r.name, r.alias)]
  }

  /** `GetTop()`: walks the owner chain to its root. The result has no owner and
      is exactly the first segment of the path. */
  function GetTop(r: ObjectReference): (t: ObjectReference)
    ensures t.owner.None?
    ensures Segment(t.name, t.alias) == Segments(r)[0]
    decreases r
  {
    match r.owner
    case None => r
    case Some(o) => GetTop(o)
  }

  /** a is reached from r by following one or more owner links. */
  predicate IsProperAncestor(a: ObjectReference, r: ObjectReference)
    decreases r
  {
    match r.owner
    case None => false
    case Some(o) => a == o || IsProperAncestor(a, o)
  }

  /** The owner chain is never cyclic: no reference is its own ancestor. */
  lemma {:induction false} AncestorIsShorter(a: ObjectReference, r: ObjectReference)
    requires IsProperAncestor(a, r)
    ensures |Segments(a)| < |Segments(r)| && a != r
    decreases r
  {
    var o := r.owner.value;
    if a != o {
      AncestorIsShorter(a, o);
    }
  }

  /** GetTop returns the root ancestor (or the reference itself when it has no owner). */
  lemma {:induction false} GetTopIsRootAncestor(r: ObjectReference)
    ensures r.owner.None? ==> GetTop(r) == r
    ensures r.owner.Some? ==> IsProperAncestor(GetTop(r), r)
    decreases r
  {
    match r.owner
    case None =>
    case Some(o) =>
      GetTopIsRootAncestor(o);
  }

  /** Structural equality: two references are equal exactly when their paths,
      names and aliases segment by segment, are equal. */
  lemma {:induction false} EqualIffSameSegments(a: ObjectReference, b: ObjectReference)
    ensures a == b <==> Segments(a) == Segments(b)
    decreases a
  {
    if Segments(a) == Segments(b) {
      var sa, sb := Segments(a), Segments(b);
      assert a.name == b.name && a.alias == b.alias by {
        assert sa[|sa| - 1] == sb[|sb| - 1];
      }
      match a.owner
      case None =>
      case Some(oa) =>
        var ob := b.owner.value;
        assert Segments(oa) == sa[..|sa| - 1];
        assert Segments(ob) == sb[..|sb| - 1];
        EqualIffSameSegments(oa, ob);
    }
  }

  /** The comparison operators defined on ObjectReference. */
  datatype Comparison = Eq | Ne | Gt | Lt | Ge | Le

  /** The tag of an expression node. */
  datatype ExpressionType =
    | Equal | NotEqual | GreaterThan | LessThan | GreaterThanOrEqual | LessThanOrEqual
    | And | Or

  /** An operand: a reference, a literal, a range (`1.to(10)`), an array of
      literals, or a sub-expression. */
  datatype Operand =
    | Reference(ref: ObjectReference)
    | Literal(value: Value)
    | Range(start: Value, end: Value)
    | ValueList(items: seq<Value>)
    | Expression(expr: SimpleExpression)

  /** A binary expression node: left operand, right operand and tag. */
  datatype SimpleExpression = SimpleExpression(left: Operand, right: Operand, kind: ExpressionType)

  /** The tag each operator gives the node it builds. */
  function TypeOf(op: Comparison): ExpressionType {
    match op
    case Eq => Equal
    case Ne => NotEqual
    case Gt => GreaterThan
    case Lt => LessThan
    case Ge => GreaterThanOrEqual
    case Le => LessThanOrEqual
  }

  /** The operator a comparison tag comes from; None for And and Or. */
  function ComparisonOf(kind: ExpressionType): (op: Option<Comparison>)
    ensures op.Some? ==> TypeOf(op.value) == kind
    ensures op.None? <==> kind == And || kind == Or
  {
    match kind
    case Equal => Some(Eq)
    case NotEqual => Some(Ne)
    case GreaterThan => Some(Gt)
    case LessThan => Some(Lt)
    case GreaterThanOrEqual => Some(Ge)
    case LessThanOrEqual => Some(Le)
    case And => None
    case Or => None
  }

  /** `reference op value`: the node the six overloaded operators build. */
  function Compare(r: ObjectReference, op: Comparison, right: Operand): (e: SimpleExpression)
    ensures e.left == Reference(r) && e.right == right && ComparisonOf(e.kind) == Some(op)
  {
    SimpleExpression(Reference(r), right, TypeOf(op))
  }

  /** Reads a node back as the comparison that built it, if it is one. */
  function AsComparison(e: SimpleExpression): Option<(ObjectReference, Comparison, Operand)> {
    match (e.left, ComparisonOf(e.kind))
    case (Reference(r), Some(op)) => Some((r, op, e.right))
    case _ => None
  }

  /** The encoding of a comparison as a node is lossless, and every comparison
      node is the encoding of exactly the comparison it decodes to. */
  lemma CompareRoundTrip(r: ObjectReference, op: Comparison, right: Operand, e: SimpleExpression)
    ensures AsComparison(Compare(r, op, right)) == Some((r, op, right))
    ensures AsComparison(e) == Some((r, op, right)) ==> e == Compare(r, op, right)
  {
  }

  /** Each operator puts the reference on the left, the value on the right, and
      its own tag on the node; the six tags are pairwise distinct. */
  lemma OperatorTags(r: ObjectReference, v: Operand)
    ensures Compare(r, Eq, v) == SimpleExpression(Reference(r), v, Equal)
    ensures Compare(r, Ne, v) == SimpleExpression(Reference(r), v, NotEqual)
    ensures Compare(r, Gt, v) == SimpleExpression(Reference(r), v, GreaterThan)
    ensures Compare(r, Lt, v) == SimpleExpression(Reference(r), v, LessThan)
    ensures Compare(r, Ge, v) == SimpleExpression(Reference(r), v, GreaterThanOrEqual)
    ensures Compare(r, Le, v) == SimpleExpression(Reference(r), v, LessThanOrEqual)
    ensures forall p, q :: TypeOf(p) == TypeOf(q) ==> p == q
  {
  }

  /** `a && b`: a new node wrapping both operands unchanged; it is not a comparison. */
  function AndAlso(a: SimpleExpression, b: SimpleExpression): (e: SimpleExpression)
    ensures e.left == Expression(a) && e.right == Expression(b)
    ensures ComparisonOf(e.kind).None? && e.kind != Or
  {
    SimpleExpression(Expression(a), Expression(b), And)
  }

  /** `a || b`: a new node wrapping both operands unchanged; it is not a comparison. */
  function OrElse(a: SimpleExpression, b: SimpleExpression): (e: SimpleExpression)
    ensures e.left == Expression(a) && e.right == Expression(b)
    ensures ComparisonOf(e.kind).None? && e.kind != And
  {
    SimpleExpression(Expression(a), Expression(b), Or)
  }

  /** Combining never loses an operand: an And or Or node determines which of
      the two it is and both of its operands, and it never reads back as a
      comparison. */
  lemma LogicalRoundTrip(a: SimpleExpression, b: SimpleExpression, c: SimpleExpression, d: SimpleExpression)
    ensures AsComparison(AndAlso(a, b)).None? && AsComparison(OrElse(a, b)).None?
    ensures AndAlso(a, b) != OrElse(c, d)
    ensures AndAlso(a, b) == AndAlso(c, d) ==> a == c && b == d
    ensures OrElse(a, b) == OrElse(c, d) ==> a == c && b == d
  {
  }

  /** The fixture chain quux -> bar -> foo: GetTop returns foo. */
  lemma GetTopFixture()
    ensures var foo := NewReference("foo");
            GetTop(OwnedBy("quux", OwnedBy("bar", foo))) == foo
  {
  }

  /** `Db.foo.id` is the path foo, id and differs from any other path, and
      `Db.foo.id == 1` has that reference on the left and the literal 1 on the right. */
  lemma ColumnReferenceFixture()
    ensures ColumnOf("foo", "id") != ColumnOf("foo", "name") && ColumnOf("foo", "id") != ColumnOf("bar", "id")
    ensures ColumnOf("foo", "id") != NewReference("id")
    ensures Segments(ColumnOf("foo", "id")) == [Segment("foo", None), Segment("id", None)]
    ensures AsComparison(Compare(ColumnOf("foo", "id"), Eq, Literal(Int(1))))
            == Some((ColumnOf("foo", "id"), Eq, Literal(Int(1))))
  {
  }
}
