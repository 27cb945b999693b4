/**
  The filters that the access utilities hand to the database, with their meaning on a row: a missing or null column
  matches no comparison, `some` looks for one related row, and an object with several members means all of them.
 */
module Where {
  import opened Options

  datatype Value = Null | Text(s: string) | Instant(ms: int)

  datatype Row = Row(columns: map<string, Value>, relations: map<string, seq<Row>>)

  datatype Filter =
    | Everything
    | Equals(column: string, text: string)
    | AtLeast(column: string, ms: int)
    | Related(relation: string, filter: Filter)
    | Both(left: Filter, right: Filter)
    | AnyOf(filters: seq<Filter>)

  function Column(row: Row, column: string): Value {
    if column in row.columns then row.columns[column] else Null
  }

  function RelatedRows(row: Row, relation: string): seq<Row> {
    if relation in row.relations then row.relations[relation] else []
  }

  predicate Matches(f: Filter, row: Row)
    decreases f
  {
    match f
    case Everything => true
    case Equals(column, text) => Column(row, column) == Text(text)
    case AtLeast(column, ms) => Column(row, column).Instant? && Column(row, column).ms >= ms
    case Related(relation, filter) => exists i | 0 <= i < |RelatedRows(row, relation)| ::
      Matches(filter, RelatedRows(row, relation)[i])
    case Both(left, right) => Matches(left, row) && Matches(right, row)
    case AnyOf(filters) => exists i | 0 <= i < |filters| :: Matches(filters[i], row)
  }

  lemma MatchesNone(row: Row)
    ensures !Matches(AnyOf([]), row)
  {
  }

  lemma OneOf(f: Filter, row: Row)
    ensures Matches(AnyOf([f]), row) <==> Matches(f, row)
  {
    assert [f][0] == f;
  }

  lemma TwoOf(a: Filter, b: Filter, row: Row)
    ensures Matches(AnyOf([a, b]), row) <==> Matches(a, row) || Matches(b, row)
  {
    assert [a, b][0] == a && [a, b][1] == b;
  }

  lemma AnyOfBoth(a: seq<Filter>, b: seq<Filter>, row: Row)
    ensures Matches(AnyOf(a + b), row) <==> Matches(AnyOf(a), row) || Matches(AnyOf(b), row)
  {
    var all := a + b;
    assert forall i | 0 <= i < |a| :: all[i] == a[i];
    assert forall i | 0 <= i < |b| :: all[|a| + i] == b[i];
  }

  lemma AnyRelated(relation: string, f: Filter, row: Row)
    ensures Matches(Related(relation, f), row)
      <==> exists i | 0 <= i < |RelatedRows(row, relation)| :: Matches(f, RelatedRows(row, relation)[i])
  {
  }

  // ------------------------------------------------------------------------------------------ ids

  /** An id that is present and not empty. */
  predicate IsTruthy(id: Option<string>) {
    id.Some? && id.value != ""
  }

  /** An optional id as a column. */
  function OrNull(id: Option<string>): Value {
    if id.Some? then Text(id.value) else Null
  }
}
