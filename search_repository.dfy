/**
 * `SearchRepository`: the two repository-side query builders.
 *
 * The criteria path starts from the always-true conjunction and lets a
 * consumer fold each search criterion into the predicate, in list order; the
 * consumer's own combination rule is not part of this model, so a folded
 * predicate is kept as a symbolic term. The customised-query path grows a
 * WHERE text from fixed clauses, one per present filter, and binds a named
 * parameter for each of them.
 */
module SearchRepository {
  import opened Wrappers
  import opened JavaText
  import opened Paging

  // ----------------------------------------------------------------------
  // Criteria path

  /** `SearchCriteria(key, operation, value)`. */
  datatype SearchCriteria = SearchCriteria(key: string, operation: string, value: string)

  /** A JPA predicate under construction: `Conjunction` is `builder.conjunction()`,
      `Restricted(p, c)` is what the criteria consumer makes of `p` and `c`. */
  datatype Predicate = Conjunction | Restricted(base: Predicate, criterion: SearchCriteria)

  /** The predicate after the consumer has accepted `cs`, in order, starting from `p`. */
  function Fold(p: Predicate, cs: seq<SearchCriteria>): Predicate
  {
    if cs == [] then p else Restricted(Fold(p, cs[..|cs| - 1]), cs[|cs| - 1])
  }

  /** The criteria folded into a predicate since the initial conjunction, oldest first. */
  function CriteriaOf(p: Predicate): seq<SearchCriteria>
  {
    match p
    case Conjunction => []
    case Restricted(b, c) => CriteriaOf(b) + [c]
  }

  /** Folding in two batches is folding the concatenation. */
  lemma {:induction false} FoldAppend(p: Predicate, a: seq<SearchCriteria>, b: seq<SearchCriteria>)
    ensures Fold(p, a + b) == Fold(Fold(p, a), b)
  {
    if b != [] {
      assert (a + b)[..|a + b| - 1] == a + b[..|b| - 1];
      FoldAppend(p, a, b[..|b| - 1]);
    } else {
      assert a + b == a;
    }
  }

  /** The final predicate records every criterion exactly once, in list order:
      none is dropped, duplicated or reordered. */
  lemma {:induction false} FoldRecordsCriteria(p: Predicate, cs: seq<SearchCriteria>)
    ensures CriteriaOf(Fold(p, cs)) == CriteriaOf(p) + cs
  {
    if cs != [] {
      FoldRecordsCriteria(p, cs[..|cs| - 1]);
      assert cs[..|cs| - 1] + [cs[|cs| - 1]] == cs;
    }
  }

  /** Different criteria lists give different predicates. */
  lemma FoldInjective(cs: seq<SearchCriteria>, ds: seq<SearchCriteria>)
    requires Fold(Conjunction, cs) == Fold(Conjunction, ds)
    ensures cs == ds
  {
    FoldRecordsCriteria(Conjunction, cs);
    FoldRecordsCriteria(Conjunction, ds);
  }

  /** `UserSearchQueryCriteriaConsumer`: holds the predicate and folds in each criterion it accepts. */
  class CriteriaConsumer {
    var restriction: Predicate

    constructor (initial: Predicate)
      ensures restriction == initial
    {
      restriction := initial;
    }

    method Accept(c: SearchCriteria)
      modifies this
      ensures restriction == Restricted(old(restriction), c)
    {
      restriction := Restricted(restriction, c);
    }
  }

  /** A JPA query object: its definition, the paging limits set on it and its named parameters. */
  class JpaQuery<D> {
    const definition: D
    var firstResult: int
    var maxResults: Option<int>
    var parameters: map<string, ParamValue>

    constructor (definition: D)
      ensures this.definition == definition
      ensures firstResult == 0 && maxResults == None && parameters == map[]
    {
      this.definition := definition;
      firstResult, maxResults, parameters := 0, None, map[];
    }

    /** `setFirstResult(n)`: JPA refuses a negative position. */
    method SetFirstResult(n: int) returns (ok: bool)
      modifies this`firstResult
      ensures ok <==> n >= 0
      ensures firstResult == if ok then n else old(firstResult)
    {
      ok := n >= 0;
      if ok {
        firstResult := n;
      }
    }

    /** `setMaxResults(n)`: JPA refuses a negative limit. */
    method SetMaxResults(n: int) returns (ok: bool)
      modifies this`maxResults
      ensures ok <==> n >= 0
      ensures maxResults == if ok then Some(n) else old(maxResults)
    {
      ok := n >= 0;
      if ok {
        maxResults := Some(n);
      }
    }

    method SetParameter(name: string, v: ParamValue)
      modifies this`parameters
      ensures parameters == old(parameters)[name := v]
    {
      parameters := parameters[name := v];
    }
  }

  /** The exceptions the two builders can raise before a query runs. */
  datatype QueryError =
    | NegativeFirstResult(position: int)
    | NegativeMaxResults(limit: int)
    | InvalidPageRequest(error: PagingError)

  /** What `findAllUsersByCriteria` hands to the entity manager. */
  datatype CriteriaPlan = CriteriaPlan(
    listWhere: Predicate, firstResult: int, maxResults: int, countWhere: Predicate, pageable: PageRequest)

  /**
   * `findAllUsersByCriteria`: the predicate starts as the conjunction, the
   * consumer folds in the criteria in list order, and the same predicate
   * restricts the list query and the count query. The list query starts at
   * `(int) pageable.getOffset()`, which wraps to a negative position (and is
   * refused) when the offset exceeds `Integer.MAX_VALUE`.
   */
  method FindAllUsersByCriteria(pageable: PageRequest, params: seq<SearchCriteria>)
    returns (r: Result<CriteriaPlan, QueryError>)
    requires 0 <= pageable.page <= INT_MAX && 1 <= pageable.size <= INT_MAX
    ensures r.Success? <==> ToInt(pageable.Offset()) >= 0
    ensures r.Failure? ==> r.error == NegativeFirstResult(ToInt(pageable.Offset()))
    ensures r.Success? ==> r.value.listWhere == Fold(Conjunction, params)
    ensures r.Success? ==> r.value.countWhere == r.value.listWhere
    ensures r.Success? ==> r.value.firstResult == ToInt(pageable.Offset())
    ensures r.Success? ==> r.value.maxResults == pageable.size && r.value.pageable == pageable
  {
    var consumer := new CriteriaConsumer(Conjunction);
    for i := 0 to |params|
      invariant consumer.restriction == Fold(Conjunction, params[..i])
    {
      consumer.Accept(params[i]);
      assert params[..i + 1][..i] == params[..i];
    }
    assert params[..|params|] == params;
    var where := consumer.restriction;

    var listQuery := new JpaQuery(where);
    var offset := ToInt(pageable.Offset());
    var ok := listQuery.SetFirstResult(offset);
    if !ok {
      return Failure(NegativeFirstResult(offset));
    }
    ok := listQuery.SetMaxResults(pageable.size);
    var countQuery := new JpaQuery(where);
    r := Success(CriteriaPlan(listQuery.definition, listQuery.firstResult, pageable.size,
                              countQuery.definition, pageable));
  }

  /** The list query's first row is the page's true offset whenever that fits in an `int`. */
  lemma CriteriaOffsetExact(pageable: PageRequest)
    requires 0 <= pageable.page && 0 <= pageable.size && pageable.Offset() <= INT_MAX
    ensures ToInt(pageable.Offset()) == pageable.page * pageable.size
  {
  }

  /** Page 1_100_000 of size 2000 has offset 2_200_000_000, which the cast wraps to a negative position. */
  lemma CriteriaOffsetWraps()
    ensures ToInt(PageRequest(1_100_000, 2000, []).Offset()) == 2_200_000_000 - 0x1_0000_0000
  {
  }

  // ----------------------------------------------------------------------
  // Customised-query path

  const BASE_WHERE: string := " WHERE 1=1"
  const AND: string := " AND"
  const FIRST_NAME_PARAM: string := ":firstName"
  const LAST_NAME_PARAM: string := ":lastName"
  const GENDER_PARAM: string := ":gender"
  /** `" AND u.firstName=:firstName"` */
  const FIRST_NAME_CLAUSE: string := AND + " u.firstName=" + FIRST_NAME_PARAM
  /** `" AND u.lastName=:lastName"` */
  const LAST_NAME_CLAUSE: string := AND + " u.lastName=" + LAST_NAME_PARAM
  /** `" AND u.gender=:gender"` */
  const GENDER_CLAUSE: string := AND + " u.gender=" + GENDER_PARAM
  const SELECT_HEAD: string :=
    "SELECT new com.sample.dto.response.UserDetailResponse(u.id, u.firstName, u.lastName, u.email, u.phone) FROM UserEntity u "
  const SELECT_TAIL: string := " ORDER BY u.id DESC"
  const SELECT_COUNT: string := "SELECT COUNT(*) "
  const FROM_USERS: string := "FROM UserEntity u "
  /** `"SELECT COUNT(*) FROM UserEntity u "` */
  const COUNT_HEAD: string := SELECT_COUNT + FROM_USERS

  /** A value bound to a named parameter. */
  datatype ParamValue = Text(text: string) | Number(number: int)

  /** `java.lang.StringBuilder`, as far as appending goes. */
  class StringBuilder {
    var contents: string

    constructor (initial: string)
      ensures contents == initial
    {
      contents := initial;
    }

    method Append(s: string)
      modifies this
      ensures contents == old(contents) + s
    {
      contents := contents + s;
    }
  }

  /** Position of a clause in the fixed order the builder appends them in. */
  function Rank(clause: string): int
  {
    if clause == FIRST_NAME_CLAUSE then 0 else if clause == LAST_NAME_CLAUSE then 1 else 2
  }

  /** The number of optional filters that are present. */
  function PresentCount(firstName: Option<string>, lastName: Option<string>, gender: Option<int>): nat
  {
    (if HasLength(firstName) then 1 else 0) + (if HasLength(lastName) then 1 else 0) + (if gender.Some? then 1 else 0)
  }

  /** The clauses appended after `" WHERE 1=1"`, in the order they are appended. */
  function Clauses(firstName: Option<string>, lastName: Option<string>, gender: Option<int>): (cs: seq<string>)
    ensures |cs| == PresentCount(firstName, lastName, gender)
    ensures FIRST_NAME_CLAUSE in cs <==> HasLength(firstName)
    ensures LAST_NAME_CLAUSE in cs <==> HasLength(lastName)
    ensures GENDER_CLAUSE in cs <==> gender.Some?
    ensures forall i, j :: 0 <= i < j < |cs| ==> Rank(cs[i]) < Rank(cs[j])
  {
    Slot(HasLength(firstName), FIRST_NAME_CLAUSE) + Slot(HasLength(lastName), LAST_NAME_CLAUSE)
      + Slot(gender.Some?, GENDER_CLAUSE)
  }

  /** The one-clause list if the filter is present, the empty list otherwise. */
  function Slot(present: bool, clause: string): seq<string>
  {
    if present then [clause] else []
  }

  /** The concatenation of a list of texts. */
  function Concat(ts: seq<string>): string
  {
    if ts == [] then "" else ts[0] + Concat(ts[1..])
  }

  lemma {:induction false} ConcatAppend(a: seq<string>, b: seq<string>)
    ensures Concat(a + b) == Concat(a) + Concat(b)
  {
    if a == [] {
      assert a + b == b;
    } else {
      assert (a + b)[1..] == a[1..] + b;
      ConcatAppend(a[1..], b);
    }
  }

  lemma ConcatSlots(p: bool, x: string, q: bool, y: string, r: bool, z: string)
    ensures Concat(Slot(p, x) + Slot(q, y) + Slot(r, z)) == When(p, x) + When(q, y) + When(r, z)
  {
    var a, b, c := Slot(p, x), Slot(q, y), Slot(r, z);
    ConcatAppend(a + b, c);
    ConcatAppend(a, b);
    ConcatSlot(p, x);
    ConcatSlot(q, y);
    ConcatSlot(r, z);
  }

  lemma ConcatSlot(p: bool, x: string)
    ensures Concat(Slot(p, x)) == When(p, x)
  {
    if p {
      assert [x][1..] == [];
    }
  }

  /** The WHERE text is the base condition followed by exactly the clauses of the present
      filters, one each, in fixed order. */
  lemma WhereIsBaseAndClauses(firstName: Option<string>, lastName: Option<string>, gender: Option<int>)
    ensures WhereText(firstName, lastName, gender) == BASE_WHERE + Concat(Clauses(firstName, lastName, gender))
  {
    ConcatSlots(HasLength(firstName), FIRST_NAME_CLAUSE, HasLength(lastName), LAST_NAME_CLAUSE,
                gender.Some?, GENDER_CLAUSE);
  }

  /** `clause` if the filter is present, nothing otherwise. */
  function When(present: bool, clause: string): string
  {
    if present then clause else ""
  }

  /** A base condition followed by those of three clauses whose flag is set, in order. */
  function Assemble(base: string, f: string, pf: bool, l: string, pl: bool, g: string, pg: bool): string
  {
    base + When(pf, f) + When(pl, l) + When(pg, g)
  }

  /** The WHERE text: the base condition followed by the present filters' clauses in fixed order. */
  function WhereText(firstName: Option<string>, lastName: Option<string>, gender: Option<int>): string
  {
    Assemble(BASE_WHERE, FIRST_NAME_CLAUSE, HasLength(firstName), LAST_NAME_CLAUSE, HasLength(lastName),
             GENDER_CLAUSE, gender.Some?)
  }

  /** The named parameters bound for the present filters. */
  function Bindings(firstName: Option<string>, lastName: Option<string>, gender: Option<int>): (m: map<string, ParamValue>)
    ensures FIRST_NAME_PARAM in m <==> HasLength(firstName)
    ensures LAST_NAME_PARAM in m <==> HasLength(lastName)
    ensures GENDER_PARAM in m <==> gender.Some?
    ensures m.Keys <= {FIRST_NAME_PARAM, LAST_NAME_PARAM, GENDER_PARAM}
    ensures HasLength(firstName) ==> m[FIRST_NAME_PARAM] == Text(firstName.value)
    ensures HasLength(lastName) ==> m[LAST_NAME_PARAM] == Text(lastName.value)
    ensures gender.Some? ==> m[GENDER_PARAM] == Number(gender.value)
  {
    var m1 := if HasLength(firstName) then map[FIRST_NAME_PARAM := Text(firstName.value)] else map[];
    var m2 := if HasLength(lastName) then m1[LAST_NAME_PARAM := Text(lastName.value)] else m1;
    if gender.Some? then m2[GENDER_PARAM := Number(gender.value)] else m2
  }

  /** The WHERE text as the repository builds it: a `StringBuilder` seeded with
      the base condition, one `append` per present filter. */
  method BuildWhere(firstName: Option<string>, lastName: Option<string>, gender: Option<int>)
    returns (w: string)
    ensures w == WhereText(firstName, lastName, gender)
  {
    var where := new StringBuilder(BASE_WHERE);
    if HasLength(firstName) {
      where.Append(FIRST_NAME_CLAUSE);
    }
    assert where.contents == BASE_WHERE + When(HasLength(firstName), FIRST_NAME_CLAUSE);
    if HasLength(lastName) {
      where.Append(LAST_NAME_CLAUSE);
    }
    assert where.contents == BASE_WHERE + When(HasLength(firstName), FIRST_NAME_CLAUSE)
      + When(HasLength(lastName), LAST_NAME_CLAUSE);
    if gender.Some? {
      where.Append(GENDER_CLAUSE);
    }
    w := where.contents;
  }

  /** Binds each present filter's value to its placeholder, one `setParameter` at a time. */
  method BindFilters<D>(q: JpaQuery<D>, firstName: Option<string>, lastName: Option<string>, gender: Option<int>)
    modifies q`parameters
    requires q.parameters == map[]
    ensures q.parameters == Bindings(firstName, lastName, gender)
  {
    if HasLength(firstName) {
      q.SetParameter(FIRST_NAME_PARAM, Text(firstName.value));
    }
    if HasLength(lastName) {
      q.SetParameter(LAST_NAME_PARAM, Text(lastName.value));
    }
    if gender.Some? {
      q.SetParameter(GENDER_PARAM, Number(gender.value));
    }
  }

  /** What `findAllUsersByCustomizeQuery` hands to the entity manager. */
  datatype CustomizeQueryPlan = CustomizeQueryPlan(
    selectText: string, firstResult: int, maxResults: int,
    parameters: map<string, ParamValue>, countText: string, countParameters: map<string, ParamValue>,
    pageable: PageRequest)

  /**
   * `findAllUsersByCustomizeQuery`: appends one fixed clause per present
   * filter to `" WHERE 1=1"`, embeds that WHERE text in the select and the
   * count query, starts the select at row `pageNo` itself (not
   * `pageNo * pageSize`) with `pageSize` rows, binds the present filters
   * on the select query when the text contains "AND", binds nothing on the
   * count query, and answers with the page request `(pageNo, pageSize)`. A
   * negative row position or limit is refused by the query, a page size of
   * zero by `PageRequest.of`.
   */
  method FindAllUsersByCustomizeQuery(firstName: Option<string>, lastName: Option<string>, gender: Option<int>,
                                      pageNo: int, pageSize: int)
    returns (r: Result<CustomizeQueryPlan, QueryError>)
    ensures r.Success? <==> pageNo >= 0 && pageSize >= 1
    ensures pageNo < 0 ==> r == Failure(NegativeFirstResult(pageNo))
    ensures pageNo >= 0 && pageSize < 0 ==> r == Failure(NegativeMaxResults(pageSize))
    ensures pageNo >= 0 && pageSize == 0 ==> r == Failure(InvalidPageRequest(PageSizeBelowOne))
    ensures r.Success? ==>
      var w := WhereText(firstName, lastName, gender);
      && r.value.selectText == SELECT_HEAD + w + SELECT_TAIL
      && r.value.countText == COUNT_HEAD + w
      && r.value.firstResult == pageNo
      && r.value.maxResults == pageSize
      && r.value.parameters == Bindings(firstName, lastName, gender)
      && r.value.countParameters == map[]
      && r.value.pageable == PageRequest(pageNo, pageSize, [])
  {
    var where := BuildWhere(firstName, lastName, gender);

    var selectQuery := new JpaQuery(SELECT_HEAD + where + SELECT_TAIL);
    var ok := selectQuery.SetFirstResult(pageNo);
    if !ok {
      return Failure(NegativeFirstResult(pageNo));
    }
    ok := selectQuery.SetMaxResults(pageSize);
    if !ok {
      return Failure(NegativeMaxResults(pageSize));
    }
    WhereContainsAndIff(firstName, lastName, gender);
    if Contains(where, "AND") {
      BindFilters(selectQuery, firstName, lastName, gender);
    }
    var countQuery := new JpaQuery(COUNT_HEAD + where);
    var page := PageRequestOf(pageNo, pageSize, []);
    if page.Failure? {
      return Failure(InvalidPageRequest(page.error));
    }
    r := Success(CustomizeQueryPlan(selectQuery.definition, selectQuery.firstResult, pageSize,
                                    selectQuery.parameters, countQuery.definition, countQuery.parameters,
                                    page.value));
  }

  /**
   * `findAllUsersByCustomizeQuery` with the count query bound as evidently
   * intended: the count query receives the same `setParameter` calls as the
   * select query, so every placeholder its text names is bound, and nothing
   * else is. Everything else is as `FindAllUsersByCustomizeQuery` plans it.
   */
  method FindAllUsersByCustomizeQueryBound(firstName: Option<string>, lastName: Option<string>, gender: Option<int>,
                                           pageNo: int, pageSize: int)
    returns (r: Result<CustomizeQueryPlan, QueryError>)
    ensures r.Success? <==> pageNo >= 0 && pageSize >= 1
    ensures r.Success? ==>
      && r.value.countText == COUNT_HEAD + WhereText(firstName, lastName, gender)
      && r.value.countParameters == r.value.parameters == Bindings(firstName, lastName, gender)
      && (forall k :: k in r.value.countParameters ==> Contains(r.value.countText, k))
      && (Contains(r.value.countText, FIRST_NAME_PARAM) ==> FIRST_NAME_PARAM in r.value.countParameters)
      && (Contains(r.value.countText, LAST_NAME_PARAM) ==> LAST_NAME_PARAM in r.value.countParameters)
      && (Contains(r.value.countText, GENDER_PARAM) ==> GENDER_PARAM in r.value.countParameters)
  {
    r := FindAllUsersByCustomizeQuery(firstName, lastName, gender, pageNo, pageSize);
    if r.Success? {
      var countQuery := new JpaQuery(r.value.countText);
      BindFilters(countQuery, firstName, lastName, gender);
      CountTextPlaceholders(firstName, lastName, gender);
      r := Success(r.value.(countParameters := countQuery.parameters));
    }
  }

  /** A text without the character `c` contains no text that has `c`. */
  lemma NoCharNoOccurrence(s: string, t: string, c: char)
    requires c in t && c !in s
    ensures !Contains(s, t)
  {
  }

  /** `t` occurs in `p + t + q`. */
  lemma OccursInside(p: string, t: string, q: string)
    ensures Contains(p + t + q, t)
  {
    var s := p + t + q;
    assert s[|p|..|p| + |t|] == t;
    assert OccursAt(s, t, |p|);
  }

  /** An occurrence in `x` is still one once text is put around `x`. */
  lemma OccursWithin(p: string, x: string, q: string, t: string)
    requires Contains(x, t)
    ensures Contains(p + x + q, t)
  {
    var i :| 0 <= i <= |x| - |t| && OccursAt(x, t, i);
    var s := p + x + q;
    assert s[|p| + i..|p| + i + |t|] == x[i..i + |t|];
    assert OccursAt(s, t, |p| + i);
  }

  lemma NotInWhen(c: char, present: bool, clause: string)
    requires c !in clause
    ensures c !in When(present, clause)
  {
  }

  // Facts about the fixed texts, each checked on its own.

  lemma AndInClauses()
    ensures Contains(FIRST_NAME_CLAUSE, "AND") && Contains(LAST_NAME_CLAUSE, "AND") && Contains(GENDER_CLAUSE, "AND")
    ensures 'A' in "AND" && 'A' !in BASE_WHERE
  {
    AndLeads(" u.firstName=" + FIRST_NAME_PARAM);
    assert FIRST_NAME_CLAUSE == AND + (" u.firstName=" + FIRST_NAME_PARAM);
    AndLeads(" u.lastName=" + LAST_NAME_PARAM);
    assert LAST_NAME_CLAUSE == AND + (" u.lastName=" + LAST_NAME_PARAM);
    AndLeads(" u.gender=" + GENDER_PARAM);
    assert GENDER_CLAUSE == AND + (" u.gender=" + GENDER_PARAM);
    assert "AND"[0] == 'A';
  }

  /** A clause opened by `" AND"` contains "AND". */
  lemma AndLeads(rest: string)
    ensures Contains(AND + rest, "AND")
  {
    OccursInside(" ", "AND", rest);
    assert " " + "AND" + rest == AND + rest;
  }

  lemma FirstNameLetter()
    ensures 'f' in FIRST_NAME_CLAUSE && 'f' !in BASE_WHERE && 'f' !in LAST_NAME_CLAUSE && 'f' !in GENDER_CLAUSE
  {
  }

  lemma LastNameLetter()
    ensures 'l' in LAST_NAME_CLAUSE && 'l' !in BASE_WHERE && 'l' !in FIRST_NAME_CLAUSE && 'l' !in GENDER_CLAUSE
  {
  }

  lemma GenderLetter()
    ensures 'g' in GENDER_CLAUSE && 'g' !in BASE_WHERE && 'g' !in FIRST_NAME_CLAUSE && 'g' !in LAST_NAME_CLAUSE
  {
  }

  // The same properties for any base and clauses with the right letters.

  /** A word every clause holds occurs in the assembled text once some clause is there. */
  lemma AssembleContainsWord(base: string, f: string, pf: bool, l: string, pl: bool, g: string, pg: bool,
                             word: string)
    requires Contains(f, word) && Contains(l, word) && Contains(g, word)
    requires pf || pl || pg
    ensures Contains(Assemble(base, f, pf, l, pl, g, pg), word)
  {
    var sf, sl, sg := When(pf, f), When(pl, l), When(pg, g);
    if pf {
      OccursWithin(base, f, sl + sg, word);
      assert base + f + (sl + sg) == Assemble(base, f, pf, l, pl, g, pg);
    } else if pl {
      OccursWithin(base + sf, l, sg, word);
    } else {
      OccursWithin(base + sf + sl, g, "", word);
      assert base + sf + sl + g + "" == Assemble(base, f, pf, l, pl, g, pg);
    }
  }

  /** A word every clause holds, and whose letter `c` the base lacks, occurs in the assembled
      text exactly when some clause is there. */
  lemma AssembleContainsIff(base: string, f: string, pf: bool, l: string, pl: bool, g: string, pg: bool,
                            word: string, c: char)
    requires Contains(f, word) && Contains(l, word) && Contains(g, word)
    requires c in word && c !in base
    ensures Contains(Assemble(base, f, pf, l, pl, g, pg), word) <==> pf || pl || pg
  {
    if pf || pl || pg {
      AssembleContainsWord(base, f, pf, l, pl, g, pg, word);
    } else {
      assert Assemble(base, f, pf, l, pl, g, pg) == base;
      NoCharNoOccurrence(base, word, c);
    }
  }

  /** One slot of an assembled text: its clause occurs iff the slot is filled, given a letter
      that only the clause has. */
  lemma SlotOccursIff(before: string, present: bool, clause: string, after: string, c: char)
    requires c in clause && c !in before && c !in after
    ensures Contains(before + When(present, clause) + after, clause) <==> present
  {
    if present {
      OccursInside(before, clause, after);
    } else {
      assert before + When(present, clause) + after == before + after;
      NoCharNoOccurrence(before + after, clause, c);
    }
  }

  lemma AssembleFirstIff(base: string, f: string, pf: bool, l: string, pl: bool, g: string, pg: bool, c: char)
    requires c in f && c !in base && c !in l && c !in g
    ensures Contains(Assemble(base, f, pf, l, pl, g, pg), f) <==> pf
  {
    var sl, sg := When(pl, l), When(pg, g);
    NotInWhen(c, pl, l);
    NotInWhen(c, pg, g);
    SlotOccursIff(base, pf, f, sl + sg, c);
    assert base + When(pf, f) + (sl + sg) == Assemble(base, f, pf, l, pl, g, pg);
  }

  lemma AssembleSecondIff(base: string, f: string, pf: bool, l: string, pl: bool, g: string, pg: bool, c: char)
    requires c in l && c !in base && c !in f && c !in g
    ensures Contains(Assemble(base, f, pf, l, pl, g, pg), l) <==> pl
  {
    NotInWhen(c, pf, f);
    NotInWhen(c, pg, g);
    SlotOccursIff(base + When(pf, f), pl, l, When(pg, g), c);
  }

  lemma AssembleThirdIff(base: string, f: string, pf: bool, l: string, pl: bool, g: string, pg: bool, c: char)
    requires c in g && c !in base && c !in f && c !in l
    ensures Contains(Assemble(base, f, pf, l, pl, g, pg), g) <==> pg
  {
    NotInWhen(c, pf, f);
    NotInWhen(c, pl, l);
    SlotOccursIff(base + When(pf, f) + When(pl, l), pg, g, "", c);
    assert base + When(pf, f) + When(pl, l) + When(pg, g) + "" == Assemble(base, f, pf, l, pl, g, pg);
  }

  /** Every clause of an assembled text that ends with a placeholder puts that placeholder in the text. */
  lemma AssemblePlaceholders(base: string, f: string, pf: bool, l: string, pl: bool, g: string, pg: bool,
                             hf: string, kf: string, hl: string, kl: string, hg: string, kg: string)
    requires f == hf + kf && l == hl + kl && g == hg + kg
    ensures pf ==> Contains(Assemble(base, f, pf, l, pl, g, pg), kf)
    ensures pl ==> Contains(Assemble(base, f, pf, l, pl, g, pg), kl)
    ensures pg ==> Contains(Assemble(base, f, pf, l, pl, g, pg), kg)
  {
    var sf, sl, sg := When(pf, f), When(pl, l), When(pg, g);
    if pf {
      PlaceholderIn(base, hf, kf, sl + sg);
      assert base + f + (sl + sg) == Assemble(base, f, pf, l, pl, g, pg);
    }
    if pl {
      PlaceholderIn(base + sf, hl, kl, sg);
    }
    if pg {
      PlaceholderIn(base + sf + sl, hg, kg, "");
      assert base + sf + sl + g + "" == Assemble(base, f, pf, l, pl, g, pg);
    }
  }

  /** The placeholder that ends a clause occurs in any text around the clause. */
  lemma PlaceholderIn(before: string, h: string, k: string, after: string)
    ensures Contains(before + (h + k) + after, k)
  {
    OccursInside(before + h, k, after);
    assert before + h + k + after == before + (h + k) + after;
  }

  // The properties of the repository's own WHERE text.

  /** The `contains("AND")` guard holds exactly when some clause was appended. */
  lemma WhereContainsAndIff(firstName: Option<string>, lastName: Option<string>, gender: Option<int>)
    ensures Contains(WhereText(firstName, lastName, gender), "AND") <==> PresentCount(firstName, lastName, gender) > 0
  {
    AndInClauses();
    AssembleContainsIff(BASE_WHERE, FIRST_NAME_CLAUSE, HasLength(firstName), LAST_NAME_CLAUSE, HasLength(lastName),
                        GENDER_CLAUSE, gender.Some?, "AND", 'A');
  }

  /** With no filter present the WHERE text is exactly the base condition and nothing is bound. */
  lemma NoFilterNoClause(firstName: Option<string>, lastName: Option<string>, gender: Option<int>)
    requires !HasLength(firstName) && !HasLength(lastName) && gender.None?
    ensures WhereText(firstName, lastName, gender) == BASE_WHERE
    ensures Bindings(firstName, lastName, gender) == map[]
  {
  }

  /** The first-name clause occurs in the WHERE text exactly when a first name is given. */
  lemma FirstNameClauseOccursIff(firstName: Option<string>, lastName: Option<string>, gender: Option<int>)
    ensures Contains(WhereText(firstName, lastName, gender), FIRST_NAME_CLAUSE) <==> HasLength(firstName)
  {
    FirstNameLetter();
    AssembleFirstIff(BASE_WHERE, FIRST_NAME_CLAUSE, HasLength(firstName), LAST_NAME_CLAUSE, HasLength(lastName),
                     GENDER_CLAUSE, gender.Some?, 'f');
  }

  /** The last-name clause occurs in the WHERE text exactly when a last name is given. */
  lemma LastNameClauseOccursIff(firstName: Option<string>, lastName: Option<string>, gender: Option<int>)
    ensures Contains(WhereText(firstName, lastName, gender), LAST_NAME_CLAUSE) <==> HasLength(lastName)
  {
    LastNameLetter();
    AssembleSecondIff(BASE_WHERE, FIRST_NAME_CLAUSE, HasLength(firstName), LAST_NAME_CLAUSE, HasLength(lastName),
                      GENDER_CLAUSE, gender.Some?, 'l');
  }

  /** The gender clause occurs in the WHERE text exactly when a gender is given. */
  lemma GenderClauseOccursIff(firstName: Option<string>, lastName: Option<string>, gender: Option<int>)
    ensures Contains(WhereText(firstName, lastName, gender), GENDER_CLAUSE) <==> gender.Some?
  {
    GenderLetter();
    AssembleThirdIff(BASE_WHERE, FIRST_NAME_CLAUSE, HasLength(firstName), LAST_NAME_CLAUSE, HasLength(lastName),
                     GENDER_CLAUSE, gender.Some?, 'g');
  }

  /** Every bound parameter name is a placeholder that occurs in the WHERE text. */
  lemma BindingsArePlaceholders(firstName: Option<string>, lastName: Option<string>, gender: Option<int>)
    ensures forall k :: k in Bindings(firstName, lastName, gender) ==> Contains(WhereText(firstName, lastName, gender), k)
  {
    AssemblePlaceholders(BASE_WHERE, FIRST_NAME_CLAUSE, HasLength(firstName), LAST_NAME_CLAUSE, HasLength(lastName),
                         GENDER_CLAUSE, gender.Some?,
                         AND + " u.firstName=", FIRST_NAME_PARAM, AND + " u.lastName=", LAST_NAME_PARAM,
                         AND + " u.gender=", GENDER_PARAM);
  }

  /** The count query's head holds none of the placeholders' letters. */
  lemma CountHeadLetters()
    ensures 'f' in FIRST_NAME_PARAM && 'l' in LAST_NAME_PARAM && 'g' in GENDER_PARAM
    ensures 'f' !in COUNT_HEAD && 'l' !in COUNT_HEAD && 'g' !in COUNT_HEAD
  {
    SelectCountLetters();
    FromUsersLetters();
  }

  lemma SelectCountLetters()
    ensures 'f' !in SELECT_COUNT && 'l' !in SELECT_COUNT && 'g' !in SELECT_COUNT
  {
  }

  lemma FromUsersLetters()
    ensures 'f' !in FROM_USERS && 'l' !in FROM_USERS && 'g' !in FROM_USERS
  {
  }

  /** A letter in none of the head, the base and the present clauses is not in the assembled text. */
  lemma LetterNotAssembled(head: string, base: string, f: string, pf: bool, l: string, pl: bool,
                           g: string, pg: bool, c: char)
    requires c !in head && c !in base
    requires pf ==> c !in f
    requires pl ==> c !in l
    requires pg ==> c !in g
    ensures c !in head + Assemble(base, f, pf, l, pl, g, pg)
  {
    assert c !in When(pf, f) && c !in When(pl, l) && c !in When(pg, g);
  }

  /**
   * The placeholders the count text names are exactly the bound names: every
   * bound name occurs in it, and a placeholder occurs in it only when its
   * filter is present.
   */
  lemma CountTextPlaceholders(firstName: Option<string>, lastName: Option<string>, gender: Option<int>)
    ensures forall k :: k in Bindings(firstName, lastName, gender) ==>
      Contains(COUNT_HEAD + WhereText(firstName, lastName, gender), k)
    ensures Contains(COUNT_HEAD + WhereText(firstName, lastName, gender), FIRST_NAME_PARAM) ==> HasLength(firstName)
    ensures Contains(COUNT_HEAD + WhereText(firstName, lastName, gender), LAST_NAME_PARAM) ==> HasLength(lastName)
    ensures Contains(COUNT_HEAD + WhereText(firstName, lastName, gender), GENDER_PARAM) ==> gender.Some?
  {
    var w := WhereText(firstName, lastName, gender);
    var pf, pl, pg := HasLength(firstName), HasLength(lastName), gender.Some?;
    BindingsArePlaceholders(firstName, lastName, gender);
    forall k | k in Bindings(firstName, lastName, gender)
      ensures Contains(COUNT_HEAD + w, k)
    {
      OccursWithin(COUNT_HEAD, w, "", k);
      assert COUNT_HEAD + w + "" == COUNT_HEAD + w;
    }
    CountHeadLetters();
    FirstNameLetter();
    LastNameLetter();
    GenderLetter();
    if !pf {
      LetterNotAssembled(COUNT_HEAD, BASE_WHERE, FIRST_NAME_CLAUSE, pf, LAST_NAME_CLAUSE, pl, GENDER_CLAUSE, pg, 'f');
      NoCharNoOccurrence(COUNT_HEAD + w, FIRST_NAME_PARAM, 'f');
    }
    if !pl {
      LetterNotAssembled(COUNT_HEAD, BASE_WHERE, FIRST_NAME_CLAUSE, pf, LAST_NAME_CLAUSE, pl, GENDER_CLAUSE, pg, 'l');
      NoCharNoOccurrence(COUNT_HEAD + w, LAST_NAME_PARAM, 'l');
    }
    if !pg {
      LetterNotAssembled(COUNT_HEAD, BASE_WHERE, FIRST_NAME_CLAUSE, pf, LAST_NAME_CLAUSE, pl, GENDER_CLAUSE, pg, 'g');
      NoCharNoOccurrence(COUNT_HEAD + w, GENDER_PARAM, 'g');
    }
  }

  /** As written, a present filter leaves the count query naming a placeholder that the select
      query binds and the count query does not: it runs with an unbound parameter. */
  lemma CountQueryLeavesPlaceholderUnbound(firstName: Option<string>, lastName: Option<string>, gender: Option<int>)
    requires PresentCount(firstName, lastName, gender) > 0
    ensures exists k ::
      k in Bindings(firstName, lastName, gender) && Contains(COUNT_HEAD + WhereText(firstName, lastName, gender), k)
  {
    CountTextPlaceholders(firstName, lastName, gender);
    if HasLength(firstName) {
      assert FIRST_NAME_PARAM in Bindings(firstName, lastName, gender);
    } else if HasLength(lastName) {
      assert LAST_NAME_PARAM in Bindings(firstName, lastName, gender);
    } else {
      assert GENDER_PARAM in Bindings(firstName, lastName, gender);
    }
  }
}
