/**
 * The select case (ast.CommClause) as the matcher is written and as it is
 * evidently meant.  Every other case passes a slice field to the matcher
 * through its address; the select case passes its statements by value, and
 * the matcher's first step, `left == right` on two interface values holding
 * slices, panics in Go.  So two parses of one select case never match: the
 * comparison panics as soon as the communications agree.
 */
module MatchFindings {
  import opened Wrappers
  import opened GoToken
  import opened GoAst
  import opened Match
  import opened MatchCases

  /** The communication of a select case matches itself, nil or not. */
  lemma CommMatchesItself(ed: Edition, c: Option<Node>)
    ensures CompareIface(ed, c, c) == Same
  {
    if c.Some? {
      Identical(ed, c.value);
    }
  }

  /**
   * As written: the same select case at other positions does not match
   * itself; the comparison panics.
   */
  lemma SelectCaseAsWritten(casePos: int, comm: Option<Node>, colon: int, body: Slice,
                            casePos': int, colon': int)
    requires casePos != casePos' || colon != colon'
    ensures Compare(AsWritten, CommClause(casePos, comm, colon, body), CommClause(casePos', comm, colon', body)) == Panic
  {
    assert CommClause(casePos, comm, colon, body).attrs != CommClause(casePos', comm, colon', body).attrs;
    CommClauseCase(AsWritten, casePos, comm, colon, body, casePos', comm, colon', body);
    CommMatchesItself(AsWritten, comm);
  }

  /** The smallest witness: two empty default cases, `select { default: }`, parsed twice. */
  lemma SelectCaseWitness()
    ensures Compare(AsWritten, CommClause(1, None, 8, Nil), CommClause(20, None, 27, Nil)) == Panic
    ensures Compare(Fixed, CommClause(1, None, 8, Nil), CommClause(20, None, 27, Nil)) == Same
  {
    SelectCaseAsWritten(1, None, 8, Nil, 20, 27);
    SelectCaseFixed(1, None, 8, Nil, 20, 27);
  }

  /** Corrected: the same select case matches itself wherever it stands. */
  lemma SelectCaseFixed(casePos: int, comm: Option<Node>, colon: int, body: Slice,
                        casePos': int, colon': int)
    ensures Compare(Fixed, CommClause(casePos, comm, colon, body), CommClause(casePos', comm, colon', body)) == Same
  {
    CommClauseCase(Fixed, casePos, comm, colon, body, casePos', comm, colon', body);
    CommMatchesItself(Fixed, comm);
    SlicesReflexive(Fixed, body);
  }

  /**
   * Corrected: two select cases match exactly when their communications and
   * their statements match, positions aside.
   */
  lemma SelectCaseFixedIff(casePos: int, comm: Option<Node>, colon: int, body: Slice,
                           casePos': int, comm': Option<Node>, colon': int, body': Slice)
    ensures Compare(Fixed, CommClause(casePos, comm, colon, body), CommClause(casePos', comm', colon', body')) == Same
        <==> EraseOpt(comm) == EraseOpt(comm') && EraseSlice(body) == EraseSlice(body')
  {
    var l, r := CommClause(casePos, comm, colon, body), CommClause(casePos', comm', colon', body');
    CommClauseCase(Fixed, casePos, comm, colon, body, casePos', comm', colon', body');
    SameIffErasedEqualOpt(comm, comm');
    SameIffErasedEqualSlices(body, body');
    if l == r {
      assert comm == comm' && body == body';
    }
  }
}
