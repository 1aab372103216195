/** The SQL grammar, rule by rule, numbered so that every rule calls only lower-numbered ones before it
    has consumed any text. The builders below keep account of what a parser may call first, whether it can
    succeed on empty text and whether its repetitions advance, so each rule is checked as it is written. */
module SqlGrammar {
  import opened Peg
  import opened PegTermination
  import Cuts = PegCut
  import opened PegTrace
  import opened ParseErrors
  import opened CstReplay

  /** update_clause is the only rule that can succeed on empty text; the anchor in sql_stmt_list is the
      only such pattern. */
  const SQL_RANKING := Ranking((id: nat) => if id < RULES then id else 0,
                               (id: nat) => id == UPDATE_CLAUSE,
                               (regex: string) => regex == "\\A",
                               RULES)

  const RULES: nat := SQL_STMT_LIST + 1

  // ---------- what a parser may call first ----------

  function Larger(a: nat, b: nat): nat { if a < b then b else a }

  /** One more than the largest number that p may call before it has advanced. */
  function Left(p: Peg): nat {
    match p
    case Seq(ps) => LeftSeq(ps)
    case Ord(ps) => LeftAny(ps)
    case Pattern(_) => 0
    case Literal(_) => 0
    case NonTerminal(id) => id + 1
    case Neg(q) => Left(q)
    case Cut(q) => Left(q)
    case Star(q) => Left(q)
  }

  function LeftSeq(ps: Pegs): nat {
    if ps.Done? then 0
    else if Nullable(SQL_RANKING, ps.first) then Larger(Left(ps.first), LeftSeq(ps.rest))
    else Left(ps.first)
  }

  function LeftAny(ps: Pegs): nat {
    if ps.Done? then 0 else Larger(Left(ps.first), LeftAny(ps.rest))
  }

  lemma {:induction false} LeftIsBelow(p: Peg, r: nat)
    requires Left(p) <= r
    ensures LeftBelow(SQL_RANKING, p, r)
  {
    match p {
      case Seq(ps) => LeftSeqIsBelow(ps, r);
      case Ord(ps) => LeftAnyIsBelow(ps, r);
      case Neg(q) => LeftIsBelow(q, r);
      case Cut(q) => LeftIsBelow(q, r);
      case Star(q) => LeftIsBelow(q, r);
      case _ =>
    }
  }

  lemma {:induction false} LeftSeqIsBelow(ps: Pegs, r: nat)
    requires LeftSeq(ps) <= r
    ensures LeftOfSeq(SQL_RANKING, ps, r)
  {
    if ps.Then? {
      LeftIsBelow(ps.first, r);
      if Nullable(SQL_RANKING, ps.first) { LeftSeqIsBelow(ps.rest, r); }
    }
  }

  lemma {:induction false} LeftAnyIsBelow(ps: Pegs, r: nat)
    requires LeftAny(ps) <= r
    ensures LeftOfAll(SQL_RANKING, ps, r)
  {
    if ps.Then? {
      LeftIsBelow(ps.first, r);
      LeftAnyIsBelow(ps.rest, r);
    }
  }

  /** The rules that are negated somewhere; they contain no cut. */
  function CutFree(id: nat): bool {
    id == COLUMN_CONSTRAINT || id == INVALID_COLUMN_ALIAS || id == INVALID_TABLE_ALIAS
  }

  /** Repetitions advance, choices have alternatives, and what is negated has no cut. */
  predicate Fine(p: Peg) {
    StarsAdvance(SQL_RANKING, p) && Choices(p) && Cuts.NegsClean(CutFree, p)
  }

  predicate AllFine(ps: Pegs) {
    AllStarsAdvance(SQL_RANKING, ps) && AllChoices(ps) && Cuts.AllNegsClean(CutFree, ps)
  }

  predicate Ranked(id: nat, p: Peg) {
    Left(p) <= id && Fine(p) && (Nullable(SQL_RANKING, p) ==> id == UPDATE_CLAUSE)
  }

  lemma RankedOk(id: nat, p: Peg)
    requires id < RULES && Ranked(id, p)
    ensures RuleOk(SQL_RANKING, id, p)
  {
    LeftIsBelow(p, id);
  }

  // ---------- builders ----------

  function N(id: nat): (p: Peg)
    ensures Left(p) == id + 1 && Fine(p)
    ensures Nullable(SQL_RANKING, p) <==> id == UPDATE_CLAUSE
  {
    NonTerminal(id)
  }

  function W(word: string): (p: Peg)
    requires word != ""
    ensures Left(p) == 0 && Fine(p) && !Nullable(SQL_RANKING, p)
  {
    Literal(word)
  }

  /** Longer than the bare anchor. */
  type Regex = r: string | |r| > 2 witness @"\A."

  function P(regex: Regex): (p: Peg)
    ensures Left(p) == 0 && Fine(p) && !Nullable(SQL_RANKING, p)
  {
    Pattern(regex)
  }

  function Link(p: Peg, ps: Pegs): (r: Pegs)
    ensures LeftSeq(r) == if Nullable(SQL_RANKING, p) then Larger(Left(p), LeftSeq(ps)) else Left(p)
    ensures LeftAny(r) == Larger(Left(p), LeftAny(ps))
    ensures AllNullable(SQL_RANKING, r) == (Nullable(SQL_RANKING, p) && AllNullable(SQL_RANKING, ps))
    ensures SomeNullable(SQL_RANKING, r) == (Nullable(SQL_RANKING, p) || SomeNullable(SQL_RANKING, ps))
    ensures AllFine(r) == (Fine(p) && AllFine(ps))
  {
    Then(p, ps)
  }

  function Many(p: Peg): (q: Peg)
    requires Fine(p) && !Nullable(SQL_RANKING, p)
    ensures Left(q) == Left(p) && Fine(q) && Nullable(SQL_RANKING, q)
  {
    Star(p)
  }

  function Some(p: Peg): (q: Peg)
    requires Fine(p) && !Nullable(SQL_RANKING, p)
    ensures Left(q) == Left(p) && Fine(q) && !Nullable(SQL_RANKING, q)
  {
    var more := Link(Many(p), Done);
    assert Plus(p) == Seq(Link(p, more));
    Plus(p)
  }

  function Maybe(p: Peg): (q: Peg)
    ensures Left(q) == Left(p) && Nullable(SQL_RANKING, q)
    ensures Fine(q) == Fine(p)
  {
    var none := Link(Literal(""), Done);
    assert Opt(p) == Ord(Link(p, none));
    Opt(p)
  }

  function Not(p: Peg): (q: Peg)
    requires p.Literal? || p.Pattern? || (p.NonTerminal? && CutFree(p.id))
    ensures Left(q) == Left(p) && Nullable(SQL_RANKING, q)
    ensures Fine(q) == Fine(p)
  {
    Neg(p)
  }

  function Committed(p: Peg): (q: Peg)
    ensures Left(q) == Left(p) && Nullable(SQL_RANKING, q) == Nullable(SQL_RANKING, p)
    ensures Fine(q) == Fine(p)
  {
    Cut(p)
  }

  function InOrder(ps: Pegs): (p: Peg)
    ensures Left(p) == LeftSeq(ps) && Nullable(SQL_RANKING, p) == AllNullable(SQL_RANKING, ps)
    ensures Fine(p) == AllFine(ps)
  {
    Seq(ps)
  }

  function Either(ps: Pegs): (p: Peg)
    requires ps.Then?
    ensures Left(p) == LeftAny(ps) && Nullable(SQL_RANKING, p) == SomeNullable(SQL_RANKING, ps)
    ensures Fine(p) == AllFine(ps)
  {
    Ord(ps)
  }

  function WordList(words: seq<string>): (ps: Pegs)
    requires forall w | w in words :: w != ""
    ensures (words != [] ==> ps.Then?) && Cuts.AllClean(CutFree, ps)
    ensures LeftAny(ps) == 0 && AllFine(ps) && !SomeNullable(SQL_RANKING, ps)
  {
    if words == [] then Done else
    assert words[0] in words && forall w | w in words[1..] :: w in words;
    Link(W(words[0]), WordList(words[1..]))
  }

  function Words(words: seq<string>): (p: Peg)
    requires words != [] && forall w | w in words :: w != ""
    ensures Left(p) == 0 && Fine(p) && !Nullable(SQL_RANKING, p)
  {
    Ord(WordList(words))
  }

  function CallList(ids: seq<nat>, more: Pegs, ghost below: nat): (ps: Pegs)
    requires forall id | id in ids :: id < below && id != UPDATE_CLAUSE
    requires LeftAny(more) <= below && AllFine(more) && !SomeNullable(SQL_RANKING, more)
    ensures ids != [] ==> ps.Then?
    ensures LeftAny(ps) <= below && AllFine(ps) && !SomeNullable(SQL_RANKING, ps)
  {
    if ids == [] then more else
    assert ids[0] in ids && forall id | id in ids[1..] :: id in ids;
    Link(N(ids[0]), CallList(ids[1..], more, below))
  }

  /** The first rule or word that matches; every rule is numbered below the given number. */
  function FirstOf(ghost below: nat, ids: seq<nat>, words: seq<string>): (p: Peg)
    requires ids != [] && forall id | id in ids :: id < below && id != UPDATE_CLAUSE
    requires forall w | w in words :: w != ""
    ensures Left(p) <= below && Fine(p) && !Nullable(SQL_RANKING, p)
  {
    Ord(CallList(ids, WordList(words), below))
  }

  function L1(a: Peg): Pegs { Link(a, Done) }

  function L2(a: Peg, b: Peg): Pegs { Link(a, L1(b)) }

  function L3(a: Peg, b: Peg, c: Peg): Pegs { Link(a, L2(b, c)) }

  function L4(a: Peg, b: Peg, c: Peg, d: Peg): Pegs { Link(a, L3(b, c, d)) }

  function L5(a: Peg, b: Peg, c: Peg, d: Peg, e: Peg): Pegs { Link(a, L4(b, c, d, e)) }

  function L6(a: Peg, b: Peg, c: Peg, d: Peg, e: Peg, f: Peg): Pegs { Link(a, L5(b, c, d, e, f)) }

  function L7(a: Peg, b: Peg, c: Peg, d: Peg, e: Peg, f: Peg, g: Peg): Pegs { Link(a, L6(b, c, d, e, f, g)) }

  function L8(a: Peg, b: Peg, c: Peg, d: Peg, e: Peg, f: Peg, g: Peg, h: Peg): Pegs {
    Link(a, L7(b, c, d, e, f, g, h))
  }

  function L9(a: Peg, b: Peg, c: Peg, d: Peg, e: Peg, f: Peg, g: Peg, h: Peg, i: Peg): Pegs {
    Link(a, L8(b, c, d, e, f, g, h, i))
  }

  function L10(a: Peg, b: Peg, c: Peg, d: Peg, e: Peg, f: Peg, g: Peg, h: Peg, i: Peg, j: Peg): Pegs {
    Link(a, L9(b, c, d, e, f, g, h, i, j))
  }

  function S2(a: Peg, b: Peg): Peg { InOrder(L2(a, b)) }

  function S3(a: Peg, b: Peg, c: Peg): Peg { InOrder(L3(a, b, c)) }

  function S4(a: Peg, b: Peg, c: Peg, d: Peg): Peg { InOrder(L4(a, b, c, d)) }

  function S5(a: Peg, b: Peg, c: Peg, d: Peg, e: Peg): Peg { InOrder(L5(a, b, c, d, e)) }

  function S6(a: Peg, b: Peg, c: Peg, d: Peg, e: Peg, f: Peg): Peg { InOrder(L6(a, b, c, d, e, f)) }

  function S7(a: Peg, b: Peg, c: Peg, d: Peg, e: Peg, f: Peg, g: Peg): Peg { InOrder(L7(a, b, c, d, e, f, g)) }

  function S8(a: Peg, b: Peg, c: Peg, d: Peg, e: Peg, f: Peg, g: Peg, h: Peg): Peg {
    InOrder(L8(a, b, c, d, e, f, g, h))
  }

  function S10(a: Peg, b: Peg, c: Peg, d: Peg, e: Peg, f: Peg, g: Peg, h: Peg, i: Peg, j: Peg): Peg {
    InOrder(L10(a, b, c, d, e, f, g, h, i, j))
  }

  function O2(a: Peg, b: Peg): Peg { Either(L2(a, b)) }

  function O3(a: Peg, b: Peg, c: Peg): Peg { Either(L3(a, b, c)) }

  function O4(a: Peg, b: Peg, c: Peg, d: Peg): Peg { Either(L4(a, b, c, d)) }

  function O5(a: Peg, b: Peg, c: Peg, d: Peg, e: Peg): Peg { Either(L5(a, b, c, d, e)) }

  function O7(a: Peg, b: Peg, c: Peg, d: Peg, e: Peg, f: Peg, g: Peg): Peg { Either(L7(a, b, c, d, e, f, g)) }

  // ---------- patterns ----------

  const DAY := @"\d{4}-\d{2}-\d{2}"
  const CLOCK := @"\d{2}:\d{2}:\d{2}(:?\.\d+)?"
  const EXPONENT := @"([eE][-+]?[0-9]+)?"
  const MONTHS := @"\d+(:?-\d+)?"
  const SPAN := @"(:?\d+ )?\d{2}" + @"(:?\:\d{2})?(:?\:\d{2})?" + @"(:?\.\d+)?"

  const IDENT_REGEX: Regex := @"\A\b" + @"\p{XID_START}\p{XID_CONTINUE}*\b"
  const NUMERIC_REGEX: Regex :=
    @"\A(0[xX][0-9A-Fa-f]+|" + @"[0-9]+(\.[0-9]*)?" + EXPONENT + @"|\.[0-9]+" + EXPONENT + ")"
  const STRING_REGEX: Regex := @"\A(?s)" + @"(""(?:[^\\""]|\\.)*""" + @"|'(?:[^\\']|''|\\.)*')"
  const BLOB_REGEX: Regex := @"\A(\b[xX]'" + @"[0-9A-Fa-f]*?'" + @"|[xX]""[0-9A-Fa-f]*?"")"
  const ISO_TIME_REGEX: Regex := @"\A" + CLOCK
  const ISO_DATE_REGEX: Regex := @"\A" + DAY
  const ISO_TIMESTAMP_REGEX: Regex := @"\A" + DAY + "T" + CLOCK + "Z?"
  const TIME_REGEX: Regex := @"\A('" + CLOCK + @"'|""" + CLOCK + @""")"
  const DATE_REGEX: Regex := @"\A('" + DAY + @"'|""" + DAY + @""")"
  const TIMESTAMP_REGEX: Regex :=
    @"\A('" + DAY + "[T ]" + CLOCK + @"Z?'|""" + DAY + "[T ]" + CLOCK + @"Z?"")"
  const ISO_DURATION_REGEX: Regex := @"\AP(\d+" + @"(:?[,.]\d+)?[YMD])+" + @"(T(\d+(:?[,.]\d+)?[HMS])+)?"
  const ISO_TIME_DURATION_REGEX: Regex := @"\APT(\d+" + @"(:?[,.]\d+)?[HMS])+"
  const INTERVAL_REGEX: Regex :=
    @"\A('" + MONTHS + @"'|""" + MONTHS + @""")|('" + SPAN + @"'|""" + SPAN + @""")"
  const PARAMETER_REGEX: Regex := @"\A(:?\?" + @"|:\p{XID_START}\p{XID_CONTINUE}*\b)"
  const ANYTHING_REGEX: Regex := @"\A."

  // ---------- the rules, numbered by rank ----------

  const IDENT: nat := 0
  const NUMERIC_LITERAL: nat := 1
  const STRING_LITERAL: nat := 2
  const BLOB_LITERAL: nat := 3
  const ISO_TIME_LITERAL: nat := 4
  const ISO_DATE_LITERAL: nat := 5
  const ISO_TIMESTAMP_LITERAL: nat := 6
  const TIME_LITERAL: nat := 7
  const DATE_LITERAL: nat := 8
  const TIMESTAMP_LITERAL: nat := 9
  const ISO_DURATION_LITERAL: nat := 10
  const DATETIME_FIELD: nat := 11
  const INTERVAL_LITERAL: nat := 12
  const LITERAL: nat := 13
  const BIND_PARAMETER: nat := 14
  const SIMPLE_FUNC: nat := 15
  const SIGNED_NUMBER: nat := 16
  const COLUMN_CONSTRAINT: nat := 17
  const TYPE_NAME: nat := 18
  const COLUMN_NAME: nat := 19
  const SUBQUERY: nat := 20
  const SCALAR_SUBQUERY: nat := 21
  const PAREN_EXPR: nat := 22
  const EXTRACT_EXPR: nat := 23
  const CAST_EXPR: nat := 24
  const POSITION_EXPR: nat := 25
  const ARRAY_EXPR: nat := 26
  const OBJECT_EXPR: nat := 27
  const PATH_EXPR: nat := 28
  const CASE_EXPR: nat := 29
  const EXISTS_EXPR: nat := 30
  const AGGREGATE_FUNC: nat := 31
  const AGGREGATE_FUNCTION_INVOCATION: nat := 32
  const SIMPLE_FUNCTION_INVOCATION: nat := 33
  const SUBSTRING_EXPR: nat := 34
  const TABLE_NAME: nat := 35
  const COLUMN_REFERENCE: nat := 36
  const ATOM: nat := 37
  const ACCESS_EXPR: nat := 38
  const UNARY_EXPR: nat := 39
  const CONCAT_EXPR: nat := 40
  const MUL_EXPR: nat := 41
  const ADD_EXPR: nat := 42
  const BIT_EXPR: nat := 43
  const REL_EXPR: nat := 44
  const EQUAL_EXPR: nat := 45
  const NOT_EXPR: nat := 46
  const AND_EXPR: nat := 47
  const OR_EXPR: nat := 48
  const EXPR: nat := 49
  const EXPR_LIST: nat := 50
  const COLUMN_NAME_LIST: nat := 51
  const ALL_DISTINCT: nat := 52
  const FILTER_CLAUSE: nat := 53
  const CASE_WHEN_THEN_EXPR: nat := 54
  const CASE_ELSE_EXPR: nat := 55
  const CASE_OPERAND: nat := 56
  const SPREAD_EXPR: nat := 57
  const ARRAY_ELEMENT: nat := 58
  const COMPUTED_PROPERTY: nat := 59
  const SHORTHAND_PROPERTY: nat := 60
  const OBJECT_KEY: nat := 61
  const QUALIFIED_STAR: nat := 62
  const OBJECT_KEY_VALUE_PAIR: nat := 63
  const OBJECT_KEY_VALUE_LIST: nat := 64
  const PATH_OBJECT_LABEL: nat := 65
  const PATH_ARRAY_LENGTH: nat := 66
  const PATH_ARRAY_INDEX: nat := 67
  const PATH_ARRAY_ACCESS: nat := 68
  const PATH_ELEMENT: nat := 69
  const PAREN_EXPR_LIST: nat := 70
  const EMPTY_LIST: nat := 71
  const DISTINCT_FROM: nat := 72
  const QUANTIFIED_OPERATOR: nat := 73
  const PROPERTY_FIELD_ACCESS: nat := 74
  const PROPERTY_RECURSIVE_FIELD_ACCESS: nat := 75
  const PROPERTY_BRACKET_ACCESS: nat := 76
  const PROPERTY_BRACKET_WILDCARD_ACCESS: nat := 77
  const PROPERTY_RECURSIVE_BRACKET_ACCESS: nat := 78
  const PROPERTY_ACCESS: nat := 79
  const COLUMN_ALIAS: nat := 80
  const STAR: nat := 81
  const INVALID_COLUMN_ALIAS: nat := 82
  const RESULT_COLUMN: nat := 83
  const TABLE_ALIAS: nat := 84
  const JOIN_CONSTRAINT: nat := 85
  const JOIN_OPERATOR: nat := 86
  const TABLE_FUNCTION: nat := 87
  const TABLE_OR_SUBQUERY: nat := 88
  const JOIN_CLAUSE: nat := 89
  const SYSTEM_TIME_CLAUSE: nat := 90
  const INVALID_TABLE_ALIAS: nat := 91
  const WITH_ORDINALITY: nat := 92
  const NOT_INDEXED: nat := 93
  const FROM_CLAUSE: nat := 94
  const WHERE_CLAUSE: nat := 95
  const GROUP_BY_CLAUSE: nat := 96
  const HAVING_CLAUSE: nat := 97
  const VALUES_STMT: nat := 98
  const OBJECTS_STMT: nat := 99
  const RESULT_EXPR_LIST: nat := 100
  const SELECT_CORE: nat := 101
  const COMPOUND_OPERATOR: nat := 102
  const COMMON_TABLE_EXPRESSION: nat := 103
  const WITH_CLAUSE: nat := 104
  const ORDERING_TERM: nat := 105
  const ORDER_BY_CLAUSE: nat := 106
  const LIMIT_OFFSET_CLAUSE: nat := 107
  const SELECT_STMT: nat := 108
  const UPDATE_SET_ASSIGNMENT: nat := 109
  const UPDATE_SET_CLAUSE: nat := 110
  const UPDATE_REMOVE_CLAUSE: nat := 111
  const UPDATE_PATCH_CLAUSE: nat := 112
  const UPDATE_WHERE_CLAUSE: nat := 113
  const UPDATE_CLAUSE: nat := 114
  const UPSERT_CLAUSE: nat := 115
  const OR_REPLACE: nat := 116
  const INSERT_STMT: nat := 117
  const DELETE_STMT: nat := 118
  const ERASE_STMT: nat := 119
  const UPDATE_STMT: nat := 120
  const INDEX_NAME: nat := 121
  const INDEXED_COLUMN: nat := 122
  const CREATE_INDEX_STMT: nat := 123
  const VIEW_NAME: nat := 124
  const CREATE_VIEW_STMT: nat := 125
  const COLUMN_DEF: nat := 126
  const FOREIGN_KEY_CLAUSE: nat := 127
  const TABLE_CONSTRAINT: nat := 128
  const CREATE_TABLE_STMT: nat := 129
  const ASSERTION_NAME: nat := 130
  const CREATE_ASSERTION_STMT: nat := 131
  const IF_EXISTS: nat := 132
  const DROP_ASSERTION_STMT: nat := 133
  const DROP_INDEX_STMT: nat := 134
  const DROP_TABLE_STMT: nat := 135
  const DROP_VIEW_STMT: nat := 136
  const BEGIN_STMT: nat := 137
  const COMMIT_STMT: nat := 138
  const ROLLBACK_STMT: nat := 139
  const SAVEPOINT_NAME: nat := 140
  const SAVEPOINT_STMT: nat := 141
  const RELEASE_STMT: nat := 142
  const SQL_STMT: nat := 143
  const SQL_STMT_LIST: nat := 144

  function LiteralRule(id: nat): (r: Rule)
    requires IDENT <= id <= BIND_PARAMETER
    ensures Ranked(id, r.body)
  {
    if id == IDENT then Rule(false, P(IDENT_REGEX))
    else if id == NUMERIC_LITERAL then Rule(false, P(NUMERIC_REGEX))
    else if id == STRING_LITERAL then Rule(false, P(STRING_REGEX))
    else if id == BLOB_LITERAL then Rule(false, P(BLOB_REGEX))
    else if id == ISO_TIME_LITERAL then Rule(false, P(ISO_TIME_REGEX))
    else if id == ISO_DATE_LITERAL then Rule(false, P(ISO_DATE_REGEX))
    else if id == ISO_TIMESTAMP_LITERAL then Rule(false, P(ISO_TIMESTAMP_REGEX))
    else if id == TIME_LITERAL then Rule(false, S2(W("TIME"), P(TIME_REGEX)))
    else if id == DATE_LITERAL then Rule(false, S2(W("DATE"), P(DATE_REGEX)))
    else if id == TIMESTAMP_LITERAL then Rule(false, S2(W("TIMESTAMP"), P(TIMESTAMP_REGEX)))
    else if id == ISO_DURATION_LITERAL then Rule(false, O2(P(ISO_DURATION_REGEX), P(ISO_TIME_DURATION_REGEX)))
    else if id == DATETIME_FIELD then Rule(false, Words(["YEAR", "MONTH", "DAY", "HOUR", "MINUTE", "SECOND"]))
    else if id == INTERVAL_LITERAL then
      Rule(false, S4(W("INTERVAL"), P(INTERVAL_REGEX), N(DATETIME_FIELD), Maybe(S2(W("TO"), N(DATETIME_FIELD)))))
    else if id == LITERAL then
      Rule(true, FirstOf(LITERAL,
                         [ISO_TIMESTAMP_LITERAL, ISO_DATE_LITERAL, ISO_TIME_LITERAL, ISO_DURATION_LITERAL,
                          TIMESTAMP_LITERAL, DATE_LITERAL, TIME_LITERAL, INTERVAL_LITERAL, NUMERIC_LITERAL,
                          STRING_LITERAL, BLOB_LITERAL],
                         ["NULL", "TRUE", "FALSE", "CURRENT_TIME", "CURRENT_DATE", "CURRENT_TIMESTAMP"]))
    else Rule(false, P(PARAMETER_REGEX)) // bind_parameter
  }

  function OperandRule(id: nat): (r: Rule)
    requires SIMPLE_FUNC <= id <= POSITION_EXPR
    ensures Ranked(id, r.body)
  {
    if id == SIMPLE_FUNC then Rule(false, N(IDENT))
    else if id == SIGNED_NUMBER then Rule(false, S2(Maybe(Words(["+", "-"])), N(NUMERIC_LITERAL)))
    else if id == COLUMN_CONSTRAINT then Rule(false, O2(S2(W("PRIMARY"), W("KEY")), W("UNIQUE")))
    else if id == TYPE_NAME then
      Rule(false, S2(Some(S2(Not(N(COLUMN_CONSTRAINT)), N(IDENT))),
                     Maybe(S4(W("("), N(SIGNED_NUMBER), Maybe(S2(W(","), N(SIGNED_NUMBER))), W(")")))))
    else if id == COLUMN_NAME then Rule(false, N(IDENT))
    else if id == SUBQUERY then Rule(false, S3(W("("), N(SELECT_STMT), W(")")))
    else if id == SCALAR_SUBQUERY then Rule(false, N(SUBQUERY))
    else if id == PAREN_EXPR then Rule(false, S3(W("("), N(EXPR), W(")")))
    else if id == EXTRACT_EXPR then
      Rule(false, S2(W("EXTRACT"), Committed(S5(W("("), N(DATETIME_FIELD), W("FROM"), N(EXPR), W(")")))))
    else if id == CAST_EXPR then
      Rule(false, S2(W("CAST"), Committed(S5(W("("), N(EXPR), W("AS"), N(TYPE_NAME), W(")")))))
    else // position_expr
      Rule(false, S2(W("POSITION"), Committed(S5(W("("), N(CONCAT_EXPR), W("IN"), N(EXPR), W(")")))))
  }

  function ConstructorRule(id: nat): (r: Rule)
    requires ARRAY_EXPR <= id <= EXISTS_EXPR
    ensures Ranked(id, r.body)
  {
    if id == ARRAY_EXPR then
      Rule(false, O2(S2(W("ARRAY"), N(SUBQUERY)),
                     S2(Maybe(W("ARRAY")),
                        O2(S2(W("["), W("]")),
                           S5(W("["), N(ARRAY_ELEMENT), Many(S2(W(","), N(ARRAY_ELEMENT))), Maybe(W(",")),
                              W("]"))))))
    else if id == OBJECT_EXPR then
      Rule(false, O2(S4(W("OBJECT"), W("("), Maybe(N(OBJECT_KEY_VALUE_LIST)), W(")")),
                     S3(W("{"), Maybe(N(OBJECT_KEY_VALUE_LIST)), W("}"))))
    else if id == PATH_EXPR then Rule(false, S2(W("$"), Many(N(PATH_ELEMENT))))
    else if id == CASE_EXPR then
      Rule(false, S2(W("CASE"),
                     Committed(S4(Maybe(N(CASE_OPERAND)), Some(N(CASE_WHEN_THEN_EXPR)),
                                  Maybe(N(CASE_ELSE_EXPR)), W("END")))))
    else Rule(false, S2(W("EXISTS"), Committed(N(SUBQUERY)))) // exists_expr
  }

  function InvocationRule(id: nat): (r: Rule)
    requires AGGREGATE_FUNC <= id <= SIMPLE_FUNCTION_INVOCATION
    ensures Ranked(id, r.body)
  {
    if id == AGGREGATE_FUNC then
      Rule(false, Words(["ARRAY_AGG", "AVG", "COUNT", "GROUP_CONCAT", "MIN", "MAX", "OBJECT_AGG", "SUM", "TOTAL"]))
    else if id == AGGREGATE_FUNCTION_INVOCATION then
      Rule(false, S6(N(AGGREGATE_FUNC), W("("), Maybe(N(ALL_DISTINCT)),
                     O2(N(STAR), S2(N(EXPR_LIST), Maybe(N(ORDER_BY_CLAUSE)))), W(")"), Maybe(N(FILTER_CLAUSE))))
    else Rule(false, S4(N(SIMPLE_FUNC), W("("), Maybe(N(EXPR_LIST)), W(")"))) // simple_function_invocation
  }

  function AtomRule(id: nat): (r: Rule)
    requires SUBSTRING_EXPR <= id <= ATOM
    ensures Ranked(id, r.body)
  {
    if id == SUBSTRING_EXPR then
      Rule(false, S2(W("SUBSTRING"),
                     Committed(S5(W("("), N(EXPR), Maybe(S2(W("FROM"), N(EXPR))), Maybe(S2(W("FOR"), N(EXPR))),
                                  W(")")))))
    else if id == TABLE_NAME then Rule(false, O2(S3(W("INFORMATION_SCHEMA"), W("."), N(IDENT)), N(IDENT)))
    else if id == COLUMN_REFERENCE then
      Rule(false, S2(Maybe(S3(N(TABLE_NAME), W("."), Not(W(".")))), N(COLUMN_NAME)))
    else // atom
      Rule(true, FirstOf(ATOM,
                         [LITERAL, BIND_PARAMETER, SCALAR_SUBQUERY, PAREN_EXPR, EXTRACT_EXPR, CAST_EXPR,
                          POSITION_EXPR, ARRAY_EXPR, OBJECT_EXPR, PATH_EXPR, CASE_EXPR, EXISTS_EXPR,
                          AGGREGATE_FUNCTION_INVOCATION, SIMPLE_FUNCTION_INVOCATION, SUBSTRING_EXPR,
                          COLUMN_REFERENCE], []))
  }

  function OperatorRule(id: nat): (r: Rule)
    requires ACCESS_EXPR <= id <= ADD_EXPR
    ensures Ranked(id, r.body)
  {
    if id == ACCESS_EXPR then Rule(true, S2(N(ATOM), Many(N(PROPERTY_ACCESS))))
    else if id == UNARY_EXPR then Rule(true, S2(Many(Words(["+", "-", "~"])), N(ACCESS_EXPR)))
    else if id == CONCAT_EXPR then Rule(true, S2(N(UNARY_EXPR), Many(S2(W("||"), N(UNARY_EXPR)))))
    else if id == MUL_EXPR then Rule(true, S2(N(CONCAT_EXPR), Many(S2(Words(["*", "/", "%"]), N(CONCAT_EXPR)))))
    else Rule(true, S2(N(MUL_EXPR), Many(S2(Words(["+", "-"]), N(MUL_EXPR))))) // add_expr
  }

  function RelationRule(id: nat): (r: Rule)
    requires BIT_EXPR <= id <= REL_EXPR
    ensures Ranked(id, r.body)
  {
    if id == BIT_EXPR then Rule(true, S2(N(ADD_EXPR), Many(S2(Words(["<<", ">>", "&", "|"]), N(ADD_EXPR)))))
    else // rel_expr
      Rule(true, S2(N(BIT_EXPR),
                    Many(S2(Words(["<=", "<", ">=", ">"]),
                            O2(S2(N(QUANTIFIED_OPERATOR), N(SUBQUERY)), N(BIT_EXPR))))))
  }

  /** Fit to be repeated after the left operand of equal_expr. */
  predicate Tail(p: Peg) {
    Left(p) <= EQUAL_EXPR && Fine(p) && !Nullable(SQL_RANKING, p)
  }

  function ComparisonTail(): (p: Peg)
    ensures Tail(p)
  {
    S2(Words(["==", "=", "!=", "<>"]), O2(S2(N(QUANTIFIED_OPERATOR), N(SUBQUERY)), N(REL_EXPR)))
  }

  function PeriodTail(): (p: Peg)
    ensures Tail(p)
  {
    S2(O5(W("OVERLAPS"), W("EQUALS"), W("CONTAINS"), S2(Maybe(W("IMMEDIATELY")), W("PRECEDES")),
          S2(Maybe(W("IMMEDIATELY")), W("SUCCEEDS"))), N(REL_EXPR))
  }

  function LikeTail(): (p: Peg)
    ensures Tail(p)
  {
    S2(Maybe(W("NOT")),
       O2(S2(W("LIKE"), Committed(S2(N(REL_EXPR), Maybe(S2(W("ESCAPE"), N(REL_EXPR)))))),
          S2(Words(["GLOB", "REGEXP", "MATCH", "@>"]), Committed(N(REL_EXPR)))))
  }

  function IsTail(): (p: Peg)
    ensures Tail(p)
  {
    S2(W("IS"), Committed(S3(Maybe(W("NOT")), Maybe(N(DISTINCT_FROM)), O2(W("UNKNOWN"), N(REL_EXPR)))))
  }

  function BetweenTail(): (p: Peg)
    ensures Tail(p)
  {
    S3(Maybe(W("NOT")), W("BETWEEN"), Committed(S3(N(REL_EXPR), W("AND"), N(REL_EXPR))))
  }

  function InTail(): (p: Peg)
    ensures Tail(p)
  {
    S3(Maybe(W("NOT")), W("IN"), Committed(O4(N(SUBQUERY), N(PAREN_EXPR_LIST), N(EMPTY_LIST), N(TABLE_NAME))))
  }

  function EqualRule(id: nat): (r: Rule)
    requires id == EQUAL_EXPR
    ensures Ranked(id, r.body)
  {
    Rule(true, S2(N(REL_EXPR),
                  Many(O7(ComparisonTail(), PeriodTail(), LikeTail(), IsTail(), S2(W("NOT"), W("NULL")),
                          BetweenTail(), InTail()))))
  }

  function LogicRule(id: nat): (r: Rule)
    requires NOT_EXPR <= id <= EXPR
    ensures Ranked(id, r.body)
  {
    if id == NOT_EXPR then Rule(true, S2(Many(W("NOT")), N(EQUAL_EXPR)))
    else if id == AND_EXPR then Rule(true, S2(N(NOT_EXPR), Many(S2(W("AND"), N(NOT_EXPR)))))
    else if id == OR_EXPR then Rule(true, S2(N(AND_EXPR), Many(S2(W("OR"), N(AND_EXPR)))))
    else Rule(true, N(OR_EXPR)) // expr
  }

  function ArgumentRule(id: nat): (r: Rule)
    requires EXPR_LIST <= id <= ARRAY_ELEMENT
    ensures Ranked(id, r.body)
  {
    if id == EXPR_LIST then Rule(false, S2(N(EXPR), Many(S2(W(","), N(EXPR)))))
    else if id == COLUMN_NAME_LIST then
      Rule(false, S4(W("("), N(COLUMN_NAME), Many(S2(W(","), N(COLUMN_NAME))), W(")")))
    else if id == ALL_DISTINCT then Rule(false, Words(["ALL", "DISTINCT"]))
    else if id == FILTER_CLAUSE then
      Rule(false, S2(W("FILTER"), Committed(S4(W("("), W("WHERE"), N(EXPR), W(")")))))
    else if id == CASE_WHEN_THEN_EXPR then Rule(false, S4(W("WHEN"), N(EXPR), W("THEN"), N(EXPR)))
    else if id == CASE_ELSE_EXPR then Rule(false, S2(W("ELSE"), N(EXPR)))
    else if id == CASE_OPERAND then Rule(false, S2(Not(W("WHEN")), N(EXPR)))
    else if id == SPREAD_EXPR then Rule(false, S2(Words(["...", ".."]), N(EXPR)))
    else Rule(false, O2(N(SPREAD_EXPR), N(EXPR))) // array_element
  }

  function ObjectRule(id: nat): (r: Rule)
    requires COMPUTED_PROPERTY <= id <= OBJECT_KEY_VALUE_LIST
    ensures Ranked(id, r.body)
  {
    if id == COMPUTED_PROPERTY then Rule(false, S3(W("["), N(EXPR), W("]")))
    else if id == SHORTHAND_PROPERTY then Rule(false, O2(N(COLUMN_REFERENCE), N(BIND_PARAMETER)))
    else if id == OBJECT_KEY then Rule(false, O3(N(IDENT), N(STRING_LITERAL), N(COMPUTED_PROPERTY)))
    else if id == QUALIFIED_STAR then Rule(false, S3(N(TABLE_NAME), W("."), N(STAR)))
    else if id == OBJECT_KEY_VALUE_PAIR then
      Rule(false, O4(S3(N(OBJECT_KEY), Words([":", "="]), N(EXPR)), N(SPREAD_EXPR), N(QUALIFIED_STAR),
                     N(SHORTHAND_PROPERTY)))
    else // object_key_value_list
      Rule(false, S3(N(OBJECT_KEY_VALUE_PAIR), Many(S2(W(","), N(OBJECT_KEY_VALUE_PAIR))), Maybe(W(","))))
  }

  function PathRule(id: nat): (r: Rule)
    requires PATH_OBJECT_LABEL <= id <= QUANTIFIED_OPERATOR
    ensures Ranked(id, r.body)
  {
    if id == PATH_OBJECT_LABEL then Rule(false, S2(W("."), N(IDENT)))
    else if id == PATH_ARRAY_LENGTH then Rule(false, W("#"))
    else if id == PATH_ARRAY_INDEX then
      Rule(false, O2(S2(Maybe(S2(N(PATH_ARRAY_LENGTH), W("-"))), N(NUMERIC_LITERAL)), N(PATH_ARRAY_LENGTH)))
    else if id == PATH_ARRAY_ACCESS then Rule(false, S3(W("["), N(PATH_ARRAY_INDEX), W("]")))
    else if id == PATH_ELEMENT then Rule(false, O2(N(PATH_OBJECT_LABEL), N(PATH_ARRAY_ACCESS)))
    else if id == PAREN_EXPR_LIST then Rule(false, S3(W("("), N(EXPR_LIST), W(")")))
    else if id == EMPTY_LIST then Rule(false, S2(W("("), W(")")))
    else if id == DISTINCT_FROM then Rule(false, S2(W("DISTINCT"), W("FROM")))
    else Rule(false, Words(["ALL", "ANY", "SOME"])) // quantified_operator
  }

  function PropertyRule(id: nat): (r: Rule)
    requires PROPERTY_FIELD_ACCESS <= id <= PROPERTY_ACCESS
    ensures Ranked(id, r.body)
  {
    if id == PROPERTY_FIELD_ACCESS then Rule(false, S2(W("."), N(IDENT)))
    else if id == PROPERTY_RECURSIVE_FIELD_ACCESS then Rule(false, S2(W(".."), N(IDENT)))
    else if id == PROPERTY_BRACKET_ACCESS then Rule(false, S3(W("["), N(EXPR), W("]")))
    else if id == PROPERTY_BRACKET_WILDCARD_ACCESS then Rule(false, S3(W("["), N(STAR), W("]")))
    else if id == PROPERTY_RECURSIVE_BRACKET_ACCESS then
      Rule(false, S2(W(".."), O2(N(PROPERTY_BRACKET_ACCESS), N(PROPERTY_BRACKET_WILDCARD_ACCESS))))
    else // property_access
      Rule(true, O5(N(PROPERTY_FIELD_ACCESS), N(PROPERTY_RECURSIVE_FIELD_ACCESS), N(PROPERTY_BRACKET_ACCESS),
                    N(PROPERTY_BRACKET_WILDCARD_ACCESS), N(PROPERTY_RECURSIVE_BRACKET_ACCESS)))
  }

  function TableRule(id: nat): (r: Rule)
    requires COLUMN_ALIAS <= id <= TABLE_FUNCTION
    ensures Ranked(id, r.body)
  {
    if id == COLUMN_ALIAS then Rule(false, N(IDENT))
    else if id == STAR then Rule(false, W("*"))
    else if id == INVALID_COLUMN_ALIAS then
      Rule(false, Words(["FROM", "WHERE", "GROUP", "HAVING", "ORDER", "LIMIT", "UNION", "INTERSECT", "EXCEPT"]))
    else if id == RESULT_COLUMN then
      Rule(false, O3(S2(N(EXPR),
                        Maybe(O2(S2(W("AS"), Committed(N(COLUMN_ALIAS))),
                                 S2(Not(N(INVALID_COLUMN_ALIAS)), N(COLUMN_ALIAS))))), N(QUALIFIED_STAR),
                     N(STAR)))
    else if id == TABLE_ALIAS then Rule(false, S2(N(IDENT), Maybe(N(COLUMN_NAME_LIST))))
    else if id == JOIN_CONSTRAINT then Rule(false, O2(S2(W("ON"), N(EXPR)), S2(W("USING"), N(COLUMN_NAME_LIST))))
    else if id == JOIN_OPERATOR then
      Rule(false, O2(W(","), S2(Maybe(O3(S2(W("LEFT"), Maybe(W("OUTER"))), W("INNER"), W("CROSS"))), W("JOIN"))))
    else Rule(false, S2(N(SIMPLE_FUNCTION_INVOCATION), Maybe(N(WITH_ORDINALITY)))) // table_function
  }

  function FromRule(id: nat): (r: Rule)
    requires TABLE_OR_SUBQUERY <= id <= JOIN_CLAUSE
    ensures Ranked(id, r.body)
  {
    if id == TABLE_OR_SUBQUERY then
      Rule(false, O4(S4(Maybe(W("LATERAL")), N(TABLE_FUNCTION), Maybe(W("AS")), N(TABLE_ALIAS)),
                     S4(Maybe(W("LATERAL")), N(SUBQUERY), Maybe(W("AS")), N(TABLE_ALIAS)),
                     S4(N(TABLE_NAME), Maybe(N(NOT_INDEXED)), Maybe(N(SYSTEM_TIME_CLAUSE)),
                        Maybe(O2(S2(W("AS"), Committed(N(TABLE_ALIAS))),
                                 S2(Not(N(INVALID_TABLE_ALIAS)), N(TABLE_ALIAS))))),
                     S3(W("("), N(JOIN_CLAUSE), W(")"))))
    else // join_clause
      Rule(false, S2(N(TABLE_OR_SUBQUERY),
                     Many(S3(N(JOIN_OPERATOR), N(TABLE_OR_SUBQUERY), Maybe(N(JOIN_CONSTRAINT))))))
  }

  function ClauseRule(id: nat): (r: Rule)
    requires SYSTEM_TIME_CLAUSE <= id <= HAVING_CLAUSE
    ensures Ranked(id, r.body)
  {
    if id == SYSTEM_TIME_CLAUSE then
      Rule(false, S2(W("FOR"),
                     Committed(S2(W("SYSTEM_TIME"),
                                  O4(W("ALL"), S3(W("AS"), W("OF"), N(ATOM)),
                                     S4(W("FROM"), N(ATOM), W("TO"), N(ATOM)),
                                     S4(W("BETWEEN"), N(ATOM), W("AND"), N(ATOM)))))))
    else if id == INVALID_TABLE_ALIAS then
      Rule(false, Words(["LEFT", "INNER", "CROSS", "JOIN", "WHERE", "GROUP", "HAVING", "ORDER", "LIMIT", "ON",
                         "USING", "UNION", "INTERSECT", "EXCEPT"]))
    else if id == WITH_ORDINALITY then Rule(false, S2(W("WITH"), W("ORDINALITY")))
    else if id == NOT_INDEXED then Rule(false, S2(W("NOT"), W("INDEXED")))
    else if id == FROM_CLAUSE then Rule(false, S2(W("FROM"), N(JOIN_CLAUSE)))
    else if id == WHERE_CLAUSE then Rule(false, S2(W("WHERE"), N(EXPR)))
    else if id == GROUP_BY_CLAUSE then Rule(false, S3(W("GROUP"), W("BY"), N(EXPR_LIST)))
    else Rule(false, S2(W("HAVING"), N(EXPR))) // having_clause
  }

  function SelectRule(id: nat): (r: Rule)
    requires VALUES_STMT <= id <= COMMON_TABLE_EXPRESSION
    ensures Ranked(id, r.body)
  {
    if id == VALUES_STMT then Rule(false, S3(W("VALUES"), N(PAREN_EXPR_LIST), Many(S2(W(","), N(PAREN_EXPR_LIST)))))
    else if id == OBJECTS_STMT then
      Rule(false, S3(Maybe(W("OBJECTS")), N(OBJECT_EXPR), Many(S2(W(","), N(OBJECT_EXPR)))))
    else if id == RESULT_EXPR_LIST then Rule(false, S2(N(RESULT_COLUMN), Many(S2(W(","), N(RESULT_COLUMN)))))
    else if id == SELECT_CORE then
      Rule(false, O3(S7(W("SELECT"), Maybe(N(ALL_DISTINCT)), N(RESULT_EXPR_LIST), Maybe(N(FROM_CLAUSE)),
                        Maybe(N(WHERE_CLAUSE)), Maybe(N(GROUP_BY_CLAUSE)), Maybe(N(HAVING_CLAUSE))),
                     N(VALUES_STMT), N(OBJECTS_STMT)))
    else if id == COMPOUND_OPERATOR then
      Rule(false, O3(S2(W("UNION"), Maybe(W("ALL"))), W("INTERSECT"), W("EXCEPT")))
    else Rule(false, S4(N(TABLE_NAME), Maybe(N(COLUMN_NAME_LIST)), W("AS"), N(SUBQUERY))) // common_table_expression
  }

  function QueryRule(id: nat): (r: Rule)
    requires WITH_CLAUSE <= id <= SELECT_STMT
    ensures Ranked(id, r.body)
  {
    if id == WITH_CLAUSE then
      Rule(false, S4(W("WITH"), Maybe(W("RECURSIVE")), N(COMMON_TABLE_EXPRESSION),
                     Many(S2(W(","), N(COMMON_TABLE_EXPRESSION)))))
    else if id == ORDERING_TERM then Rule(false, S2(N(EXPR), Maybe(Words(["ASC", "DESC"]))))
    else if id == ORDER_BY_CLAUSE then
      Rule(false, S4(W("ORDER"), W("BY"), N(ORDERING_TERM), Many(S2(W(","), N(ORDERING_TERM)))))
    else if id == LIMIT_OFFSET_CLAUSE then
      Rule(false, S3(W("LIMIT"), N(EXPR), Maybe(S2(Words([",", "OFFSET"]), N(EXPR)))))
    else // select_stmt
      Rule(false, S5(Maybe(N(WITH_CLAUSE)), N(SELECT_CORE), Many(S2(N(COMPOUND_OPERATOR), N(SELECT_CORE))),
                     Maybe(N(ORDER_BY_CLAUSE)), Maybe(N(LIMIT_OFFSET_CLAUSE))))
  }

  function UpdateRule(id: nat): (r: Rule)
    requires UPDATE_SET_ASSIGNMENT <= id <= UPSERT_CLAUSE
    ensures Ranked(id, r.body)
  {
    if id == UPDATE_SET_ASSIGNMENT then Rule(false, S3(O2(N(COLUMN_NAME), N(PATH_EXPR)), W("="), N(EXPR)))
    else if id == UPDATE_SET_CLAUSE then
      Rule(false, S3(W("SET"), N(UPDATE_SET_ASSIGNMENT), Many(S2(W(","), N(UPDATE_SET_ASSIGNMENT)))))
    else if id == UPDATE_REMOVE_CLAUSE then
      Rule(false, S3(Words(["UNSET", "REMOVE"]), O2(N(COLUMN_NAME), N(PATH_EXPR)),
                     Many(S2(W(","), O2(N(COLUMN_NAME), N(PATH_EXPR))))))
    else if id == UPDATE_PATCH_CLAUSE then Rule(false, S2(Maybe(W("PATCH")), N(OBJECT_EXPR)))
    else if id == UPDATE_WHERE_CLAUSE then Rule(false, S2(W("WHERE"), N(EXPR)))
    else if id == UPDATE_CLAUSE then
      Rule(false, S4(Maybe(N(UPDATE_SET_CLAUSE)), Maybe(N(UPDATE_REMOVE_CLAUSE)),
                     Maybe(N(UPDATE_PATCH_CLAUSE)), Maybe(N(UPDATE_WHERE_CLAUSE))))
    else // upsert_clause
      Rule(false, S5(W("ON"), W("CONFLICT"), N(COLUMN_NAME_LIST), W("DO"),
                     O2(W("NOTHING"), S2(W("UPDATE"), N(UPDATE_CLAUSE)))))
  }

  function ChangeRule(id: nat): (r: Rule)
    requires OR_REPLACE <= id <= UPDATE_STMT
    ensures Ranked(id, r.body)
  {
    if id == OR_REPLACE then Rule(false, S2(W("OR"), W("REPLACE")))
    else if id == INSERT_STMT then
      Rule(false, S7(W("INSERT"), Maybe(N(OR_REPLACE)), W("INTO"), N(TABLE_NAME), Maybe(N(COLUMN_NAME_LIST)),
                     N(SELECT_STMT), Maybe(N(UPSERT_CLAUSE))))
    else if id == DELETE_STMT then
      Rule(false, S4(W("DELETE"), W("FROM"), N(TABLE_NAME), Maybe(S2(W("WHERE"), N(EXPR)))))
    else if id == ERASE_STMT then
      Rule(false, S4(W("ERASE"), W("FROM"), N(TABLE_NAME), Maybe(S2(W("WHERE"), N(EXPR)))))
    else Rule(false, S3(W("UPDATE"), N(TABLE_NAME), N(UPDATE_CLAUSE))) // update_stmt
  }

  function DefinitionRule(id: nat): (r: Rule)
    requires INDEX_NAME <= id <= CREATE_TABLE_STMT
    ensures Ranked(id, r.body)
  {
    if id == INDEX_NAME then Rule(false, N(IDENT))
    else if id == INDEXED_COLUMN then Rule(false, S2(N(COLUMN_NAME), Maybe(Words(["ASC", "DESC"]))))
    else if id == CREATE_INDEX_STMT then
      Rule(false, S10(W("CREATE"), Maybe(W("UNIQUE")), W("INDEX"), N(INDEX_NAME), W("ON"), N(TABLE_NAME),
                      W("("), N(INDEXED_COLUMN), Many(S2(W(","), N(INDEXED_COLUMN))), W(")")))
    else if id == VIEW_NAME then Rule(false, N(IDENT))
    else if id == CREATE_VIEW_STMT then
      Rule(false, S7(W("CREATE"), Maybe(Words(["TEMPORARY", "TEMP"])), W("VIEW"), N(VIEW_NAME),
                     Maybe(N(COLUMN_NAME_LIST)), W("AS"), N(SELECT_STMT)))
    else if id == COLUMN_DEF then
      Rule(false, S4(N(COLUMN_NAME), Not(W("KEY")), N(TYPE_NAME), Maybe(N(COLUMN_CONSTRAINT))))
    else if id == FOREIGN_KEY_CLAUSE then Rule(false, S3(W("REFERENCES"), N(TABLE_NAME), N(COLUMN_NAME_LIST)))
    else if id == TABLE_CONSTRAINT then
      Rule(false, O2(S3(W("PRIMARY"), W("KEY"), N(COLUMN_NAME_LIST)),
                     S4(W("FOREIGN"), W("KEY"), N(COLUMN_NAME_LIST), N(FOREIGN_KEY_CLAUSE))))
    else // create_table_stmt
      Rule(false, S8(W("CREATE"), W("TABLE"), N(TABLE_NAME), W("("), N(COLUMN_DEF),
                     Many(S2(W(","), N(COLUMN_DEF))), Many(S2(W(","), N(TABLE_CONSTRAINT))), W(")")))
  }

  function DropRule(id: nat): (r: Rule)
    requires ASSERTION_NAME <= id <= DROP_VIEW_STMT
    ensures Ranked(id, r.body)
  {
    if id == ASSERTION_NAME then Rule(false, N(IDENT))
    else if id == CREATE_ASSERTION_STMT then
      Rule(false, S7(W("CREATE"), W("ASSERTION"), N(ASSERTION_NAME), W("CHECK"), W("("), N(EXPR), W(")")))
    else if id == IF_EXISTS then Rule(false, S2(W("IF"), W("EXISTS")))
    else if id == DROP_ASSERTION_STMT then
      Rule(false, S4(W("DROP"), W("ASSERTION"), Maybe(N(IF_EXISTS)), N(ASSERTION_NAME)))
    else if id == DROP_INDEX_STMT then Rule(false, S4(W("DROP"), W("INDEX"), Maybe(N(IF_EXISTS)), N(INDEX_NAME)))
    else if id == DROP_TABLE_STMT then Rule(false, S4(W("DROP"), W("TABLE"), Maybe(N(IF_EXISTS)), N(TABLE_NAME)))
    else Rule(false, S4(W("DROP"), W("VIEW"), Maybe(N(IF_EXISTS)), N(VIEW_NAME))) // drop_view_stmt
  }

  function TransactionRule(id: nat): (r: Rule)
    requires BEGIN_STMT <= id <= RELEASE_STMT
    ensures Ranked(id, r.body)
  {
    if id == BEGIN_STMT then Rule(false, S2(W("BEGIN"), Maybe(W("TRANSACTION"))))
    else if id == COMMIT_STMT then Rule(false, S2(Words(["COMMIT", "END"]), Maybe(W("TRANSACTION"))))
    else if id == ROLLBACK_STMT then
      Rule(false, S3(W("ROLLBACK"), Maybe(W("TRANSACTION")),
                     Maybe(S3(W("TO"), Maybe(W("SAVEPOINT")), N(SAVEPOINT_NAME)))))
    else if id == SAVEPOINT_NAME then Rule(false, O3(N(IDENT), N(STRING_LITERAL), N(BIND_PARAMETER)))
    else if id == SAVEPOINT_STMT then Rule(false, S2(W("SAVEPOINT"), Maybe(N(SAVEPOINT_NAME))))
    else Rule(false, S3(W("RELEASE"), Maybe(W("SAVEPOINT")), N(SAVEPOINT_NAME))) // release_stmt
  }

  function StatementRule(id: nat): (r: Rule)
    requires SQL_STMT <= id <= SQL_STMT_LIST
    ensures Ranked(id, r.body)
  {
    if id == SQL_STMT then
      Rule(true, FirstOf(SQL_STMT,
                         [SELECT_STMT, INSERT_STMT, DELETE_STMT, ERASE_STMT, UPDATE_STMT,
                          CREATE_ASSERTION_STMT, CREATE_INDEX_STMT, CREATE_VIEW_STMT, CREATE_TABLE_STMT,
                          DROP_ASSERTION_STMT, DROP_INDEX_STMT, DROP_TABLE_STMT, DROP_VIEW_STMT, BEGIN_STMT,
                          COMMIT_STMT, ROLLBACK_STMT, SAVEPOINT_STMT, RELEASE_STMT], []))
    else // sql_stmt_list
      Rule(false, S5(Pattern(@"\A"), N(SQL_STMT), Many(S2(W(";"), N(SQL_STMT))), Maybe(W(";")),
                     Not(P(ANYTHING_REGEX))))
  }

  function SqlRule(id: nat): (r: Rule)
    ensures id < RULES ==> Ranked(id, r.body)
  {
    if id <= BIND_PARAMETER then LiteralRule(id)
    else if id <= POSITION_EXPR then OperandRule(id)
    else if id <= EXISTS_EXPR then ConstructorRule(id)
    else if id <= SIMPLE_FUNCTION_INVOCATION then InvocationRule(id)
    else if id <= ATOM then AtomRule(id)
    else if id <= ADD_EXPR then OperatorRule(id)
    else if id <= REL_EXPR then RelationRule(id)
    else if id <= EQUAL_EXPR then EqualRule(id)
    else if id <= EXPR then LogicRule(id)
    else if id <= ARRAY_ELEMENT then ArgumentRule(id)
    else if id <= OBJECT_KEY_VALUE_LIST then ObjectRule(id)
    else if id <= QUANTIFIED_OPERATOR then PathRule(id)
    else if id <= PROPERTY_ACCESS then PropertyRule(id)
    else if id <= TABLE_FUNCTION then TableRule(id)
    else if id <= JOIN_CLAUSE then FromRule(id)
    else if id <= HAVING_CLAUSE then ClauseRule(id)
    else if id <= COMMON_TABLE_EXPRESSION then SelectRule(id)
    else if id <= SELECT_STMT then QueryRule(id)
    else if id <= UPSERT_CLAUSE then UpdateRule(id)
    else if id <= UPDATE_STMT then ChangeRule(id)
    else if id <= CREATE_TABLE_STMT then DefinitionRule(id)
    else if id <= DROP_VIEW_STMT then DropRule(id)
    else if id <= RELEASE_STMT then TransactionRule(id)
    else if id <= SQL_STMT_LIST then StatementRule(id)
    else Rule(false, W(";")) // not used
  }


  // ---------- what the grammar keeps ----------

  lemma UnusedFine(id: nat)
    requires RULES <= id
    ensures RuleOk(SQL_RANKING, id, SqlRule(id).body) && Fine(SqlRule(id).body)
  {
  }

  lemma FineRule(id: nat)
    ensures Fine(SqlRule(id).body)
  {
    if RULES <= id { UnusedFine(id); }
  }

  /** Every rule meets the conditions of EveryRuleTerminates. */
  lemma SqlRanked()
    ensures GrammarOk(SQL_RANKING, SqlRule)
  {
    hide RuleOk, SqlRule, Ranked;
    forall id: nat ensures RuleOk(SQL_RANKING, id, SqlRule(id).body) {
      if id < RULES { RankedOk(id, SqlRule(id).body); } else { UnusedFine(id); }
    }
  }

  lemma SqlMade()
    ensures MacroMade(SqlRule)
  {
    hide SqlRule, Choices;
    forall id: nat ensures Choices(SqlRule(id).body) { ChoicesOf(id); }
  }

  lemma ChoicesOf(id: nat)
    ensures Choices(SqlRule(id).body)
  {
    hide SqlRule;
    FineRule(id);
  }

  lemma ConstraintCutFree()
    ensures Cuts.Clean(CutFree, SqlRule(COLUMN_CONSTRAINT).body)
  {
  }

  lemma ColumnAliasCutFree()
    ensures Cuts.Clean(CutFree, SqlRule(INVALID_COLUMN_ALIAS).body)
  {
  }

  lemma TableAliasCutFree()
    ensures Cuts.Clean(CutFree, SqlRule(INVALID_TABLE_ALIAS).body)
  {
  }

  /** Whatever the grammar negates is free of cuts. */
  lemma SqlCuts()
    ensures Cuts.RulesOk(CutFree, SqlRule)
  {
    hide SqlRule, Cuts.Clean, Cuts.NegsClean;
    ConstraintCutFree();
    ColumnAliasCutFree();
    TableAliasCutFree();
    forall id: nat ensures Cuts.RuleOk(CutFree, SqlRule, id) { NegsOf(id); }
  }

  lemma NegsOf(id: nat)
    ensures Cuts.NegsClean(CutFree, SqlRule(id).body)
  {
    hide SqlRule;
    FineRule(id);
  }

  /** Main result: every text is parsed or rejected, from any rule, within fuel linear in its length. */
  lemma SqlParsingTerminates(lex: Lexer, input: string, start: nat, fuel: nat)
    requires lex.Valid() && PatternsOk(SQL_RANKING, lex)
    requires Enough(SQL_RANKING, |input|, SQL_RANKING.bound) <= fuel
    ensures !Parse(Env(SqlRule, lex, input), NonTerminal(start), 0, fuel).Diverged?
  {
    hide RuleOk, SqlRule, PatternsOk, Parse;
    SqlRanked();
    EveryRuleTerminates(SQL_RANKING, Env(SqlRule, lex, input), start, fuel);
  }

  /** The cuts of the grammar, which are there for the error reports, change nothing else: a parse is a
      hard error, or it is what the same grammar without cuts gives. */
  lemma SqlCutsOnlyReject(lex: Lexer, input: string, start: nat, fuel: nat)
    requires lex.Valid()
    ensures var e := Env(SqlRule, lex, input);
            var r := Parse(e, NonTerminal(start), 0, fuel);
            r.Aborted? || Parse(Cuts.UncutEnv(e), NonTerminal(start), 0, fuel) == r
  {
    hide SqlRule, Parse, Cuts.RulesOk;
    SqlCuts();
    Cuts.CutsOnlyReject(Env(SqlRule, lex, input), CutFree, NonTerminal(start), 0, fuel);
  }

  lemma ListShown()
    ensures !SqlRule(SQL_STMT_LIST).hidden
  {
  }

  /** Text to tree for SQL: always an answer, either the visible tree of the parse, which is also that of
      the grammar without cuts, or what was expected at the furthest position where anything failed. */
  method ParseSql(lex: Lexer, input: string, fuel: nat) returns (result: Parsing)
    requires lex.Valid() && PatternsOk(SQL_RANKING, lex)
    requires Enough(SQL_RANKING, |input|, SQL_RANKING.bound) <= fuel
    ensures var r := Parse(Cuts.UncutEnv(Env(SqlRule, lex, input)), NonTerminal(SQL_STMT_LIST), 0, fuel);
            && !result.NoFuel?
            && (result.Tree? ==>
                  && r.Parsed? && |r.forest| == 1 && r.forest[0].Node?
                  && result.cst == Branch(SQL_STMT_LIST, Visible(input, r.forest[0].kids))
                  && Faithful(input, [result.cst]))
            && (result.Errors? ==>
                  FurthestFailures(Env(SqlRule, lex, input), SQL_STMT_LIST, fuel, result.errors))
  {
    hide RuleOk, PatternsOk, Parse, MacroMade, Visible, SqlRule, FurthestFailures, Faithful;
    ListShown();
    SqlMade();
    SqlParsingTerminates(lex, input, SQL_STMT_LIST, fuel);
    SqlCutsOnlyReject(lex, input, SQL_STMT_LIST, fuel);
    EnoughPositive(SQL_RANKING, |input|, SQL_RANKING.bound);
    result := ParseSqlCst(Env(SqlRule, lex, input), SQL_STMT_LIST, fuel);
  }
}
