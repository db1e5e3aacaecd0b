/**
 * `UserService`: shaping of list requests before they reach the repository.
 *
 * Each loop over the repeated `sort` or `search` strings asks a compiled
 * pattern to `find` a match in the string; a string with a match contributes
 * exactly one item, in input order, and a string without one is skipped
 * silently. The sort and criteria patterns are not part of this model, so
 * their matchers are parameters returning the captured groups. Of the
 * specification pattern
 * `(\w+?)(<operations>)(\p{Punct}?)(.*)(\p{Punct}?)` the first two groups
 * are likewise a parameter, and the tail after the operation is matched
 * here as Java's regex engine matches it.
 */
module UserService {
  import opened Wrappers
  import opened JavaText
  import opened Paging
  import opened Model
  import SearchRepository

  // ----------------------------------------------------------------------
  // Matching repeated strings

  /** The items `build` makes from the groups of every input `find` matches, in input order. */
  function Collect<S, G, R>(xs: seq<S>, find: S -> Option<G>, build: G -> R): (r: seq<R>)
    ensures |r| <= |xs|
  {
    if xs == [] then []
    else Collect(xs[..|xs| - 1], find, build) + Item(find(xs[|xs| - 1]), build)
  }

  /** What one string contributes: one item for a match, nothing otherwise. */
  function Item<G, R>(m: Option<G>, build: G -> R): seq<R>
  {
    match m
    case Some(g) => [build(g)]
    case None => []
  }

  /** Collecting is compositional: the items of `a + b` are those of `a`, then those of `b`. */
  lemma {:induction false} CollectAppend<S, G, R>(a: seq<S>, b: seq<S>, find: S -> Option<G>, build: G -> R)
    ensures Collect(a + b, find, build) == Collect(a, find, build) + Collect(b, find, build)
  {
    if b == [] {
      assert a + b == a;
    } else {
      assert (a + b)[..|a + b| - 1] == a + b[..|b| - 1];
      CollectAppend(a, b[..|b| - 1], find, build);
    }
  }

  /** A single input yields exactly one item when it matches, built from its groups, and
      none otherwise; with `CollectAppend` this determines `Collect` on every input. */
  lemma CollectSingle<S, G, R>(x: S, find: S -> Option<G>, build: G -> R)
    ensures find(x).Some? ==> Collect([x], find, build) == [build(find(x).value)]
    ensures find(x).None? ==> Collect([x], find, build) == []
  {
  }

  /** When no string matches, nothing is collected: "all filters malformed" looks like "no filter". */
  lemma {:induction false} CollectNoMatch<S, G, R>(xs: seq<S>, find: S -> Option<G>, build: G -> R)
    requires forall i :: 0 <= i < |xs| ==> find(xs[i]).None?
    ensures Collect(xs, find, build) == []
  {
    if xs != [] {
      CollectNoMatch(xs[..|xs| - 1], find, build);
    }
  }

  // ----------------------------------------------------------------------
  // getUsers(pageNo, pageSize, sort...)

  /** The page index for a caller's page number: numbers from 1 up count from one,
      0 and below are taken as they are. */
  function CurrentPage(pageNo: int): (page: int)
    ensures pageNo > 0 ==> page == pageNo - 1
    ensures pageNo <= 0 ==> page == pageNo
  {
    if pageNo > 0 then pageNo - 1 else pageNo
  }

  /** Page numbers 0 and 1 both ask for page 0; any other two page numbers ask for different pages. */
  lemma CurrentPageCollapses(p: int, q: int)
    ensures CurrentPage(p) == CurrentPage(q) <==> p == q || (p in {0, 1} && q in {0, 1})
  {
  }

  /** The groups the sort pattern captures. */
  datatype SortGroups = SortGroups(g1: string, g2: string, g3: string)

  /** One sort order: ascending exactly when group 3 is "asc" ignoring case, on the field in group 1.
      `new Sort.Order` accepts the order only when that field has text (see `GetUsers`). */
  function ToOrder(g: SortGroups): (o: Order)
    ensures o.property == g.g1
    ensures o.direction == ASC <==> IsAscIgnoringCase(g.g3)
  {
    if IsAscIgnoringCase(g.g3) then Order(ASC, g.g1) else Order(DESC, g.g1)
  }

  /** Every order names a property with text, as `new Sort.Order` demands. */
  predicate AllPropertiesHaveText(orders: seq<Order>)
  {
    forall i :: 0 <= i < |orders| ==> HasText(orders[i].property)
  }

  /** A matching sort string whose field has no text spoils the whole list of orders. */
  lemma BlankSortStringSpoils(strings: seq<string>, i: nat, find: string -> Option<SortGroups>)
    requires i < |strings| && find(strings[i]).Some? && !HasText(find(strings[i]).value.g1)
    ensures !AllPropertiesHaveText(Collect(strings, find, ToOrder))
  {
    var before, x, after := strings[..i], strings[i], strings[i + 1..];
    assert strings == before + [x] + after;
    CollectAppend(before + [x], after, find, ToOrder);
    CollectAppend(before, [x], find, ToOrder);
    CollectSingle(x, find, ToOrder);
    var orders := Collect(before, find, ToOrder);
    assert (orders + [ToOrder(find(x).value)] + Collect(after, find, ToOrder))[|orders|] == ToOrder(find(x).value);
  }

  /** The exceptions a service operation ends with. */
  datatype ServiceError =
    | NullPointer                    // a null part of the request is dereferenced
    | BlankSortProperty              // `new Sort.Order` refuses a property without text
    | InvalidPage(error: PagingError) // `PageRequest.of` refuses its arguments

  /**
   * `getUsers(pageNo, pageSize, sort...)`, up to the repository call: converts
   * the page number, turns each matching sort string into one order, and
   * builds the page request. A null `sort` (no sort parameter at all) fails
   * on `sort.length`; an order whose field has no text makes `new Sort.Order`
   * throw, before `PageRequest.of` refuses a negative page number or a size
   * below one.
   */
  method GetUsers(pageNo: int, pageSize: int, sort: Option<seq<string>>, find: string -> Option<SortGroups>)
    returns (r: Result<PageRequest, ServiceError>)
    ensures sort.None? ==> r == Failure(NullPointer)
    ensures sort.Some? && !AllPropertiesHaveText(Collect(sort.value, find, ToOrder)) ==> r == Failure(BlankSortProperty)
    ensures r.Success? <==>
      sort.Some? && AllPropertiesHaveText(Collect(sort.value, find, ToOrder)) && pageNo >= 0 && pageSize >= 1
    ensures r.Success? ==> r.value == PageRequest(CurrentPage(pageNo), pageSize, Collect(sort.value, find, ToOrder))
    ensures sort.Some? && AllPropertiesHaveText(Collect(sort.value, find, ToOrder)) ==>
      && (pageNo < 0 ==> r == Failure(InvalidPage(PageIndexBelowZero)))
      && (pageNo >= 0 && pageSize < 1 ==> r == Failure(InvalidPage(PageSizeBelowOne)))
  {
    var currentPage := pageNo;
    if pageNo > 0 {
      currentPage := pageNo - 1;
    }

    if sort.None? {
      return Failure(NullPointer);
    }
    var strings := sort.value;
    var sorts: seq<Order> := [];
    if |strings| > 0 {
      for i := 0 to |strings|
        invariant sorts == Collect(strings[..i], find, ToOrder)
        invariant AllPropertiesHaveText(sorts)
      {
        var matcher := find(strings[i]);
        assert strings[..i + 1][..i] == strings[..i];
        assert Collect(strings[..i + 1], find, ToOrder) == sorts + Item(matcher, ToOrder);
        if matcher.Some? {
          if !HasText(matcher.value.g1) {
            BlankSortStringSpoils(strings, i, find);
            return Failure(BlankSortProperty);
          }
          if IsAscIgnoringCase(matcher.value.g3) {
            sorts := sorts + [Order(ASC, matcher.value.g1)];
          } else {
            sorts := sorts + [Order(DESC, matcher.value.g1)];
          }
        }
      }
      assert strings[..|strings|] == strings;
    }
    var page := PageRequestOf(currentPage, pageSize, sorts);
    if page.Failure? {
      return Failure(InvalidPage(page.error));
    }
    r := Success(page.value);
  }

  /**
   * `getUsers` as evidently intended for a request without a sort parameter:
   * a null `sort` lists the page unsorted instead of failing. Any other
   * request is handled exactly as `GetUsers` handles it.
   */
  method GetUsersOptionalSort(pageNo: int, pageSize: int, sort: Option<seq<string>>,
                              find: string -> Option<SortGroups>)
    returns (r: Result<PageRequest, ServiceError>)
    ensures r.Failure? ==> r.error != NullPointer
    ensures sort.None? ==> (r.Success? <==> pageNo >= 0 && pageSize >= 1)
    ensures sort.None? && r.Success? ==> r.value == PageRequest(CurrentPage(pageNo), pageSize, [])
    ensures sort.Some? && r.Success? ==>
      r.value == PageRequest(CurrentPage(pageNo), pageSize, Collect(sort.value, find, ToOrder))
  {
    var strings := if sort.Some? then sort.value else [];
    r := GetUsers(pageNo, pageSize, Some(strings), find);
  }

  /** Two matching sort strings give a compound order, the first one primary. */
  lemma CompoundSort(first: string, second: string, find: string -> Option<SortGroups>)
    requires find(first) == Some(SortGroups("firstName", ",", "asc"))
    requires find(second) == Some(SortGroups("lastName", ",", "desc"))
    ensures Collect([first, second], find, ToOrder) == [Order(ASC, "firstName"), Order(DESC, "lastName")]
  {
  }

  /** Upper- and lower-case "asc" sort ascending; "desc" and anything else sort descending. */
  lemma SortDirections(field: string)
    ensures ToOrder(SortGroups(field, ":", "ASC")).direction == ASC
    ensures ToOrder(SortGroups(field, ":", "aSc")).direction == ASC
    ensures ToOrder(SortGroups(field, ":", "desc")).direction == DESC
    ensures ToOrder(SortGroups(field, ":", "ascending")).direction == DESC
    ensures ToOrder(SortGroups(field, ":", "")).direction == DESC
  {
  }

  // ----------------------------------------------------------------------
  // getUsersByCriteria

  /** The groups the search pattern captures. */
  datatype SearchGroups = SearchGroups(g1: string, g2: string, g3: string)

  function ToCriteria(g: SearchGroups): (c: SearchRepository.SearchCriteria)
    ensures c.key == g.g1 && c.operation == g.g2 && c.value == g.g3
  {
    SearchRepository.SearchCriteria(g.g1, g.g2, g.g3)
  }

  /**
   * `getUsersByCriteria`, up to the result mapping: one `SearchCriteria` per
   * matching search string, in input order, handed to the repository's
   * criteria query together with the caller's page request.
   */
  method GetUsersByCriteria(pageable: PageRequest, search: seq<string>, find: string -> Option<SearchGroups>)
    returns (r: Result<SearchRepository.CriteriaPlan, SearchRepository.QueryError>)
    requires 0 <= pageable.page <= INT_MAX && 1 <= pageable.size <= INT_MAX
    ensures r.Success? <==> ToInt(pageable.Offset()) >= 0
    ensures r.Success? ==>
      && r.value.listWhere == SearchRepository.Fold(SearchRepository.Conjunction, Collect(search, find, ToCriteria))
      && r.value.countWhere == r.value.listWhere
  {
    var params: seq<SearchRepository.SearchCriteria> := [];
    if |search| > 0 {
      for i := 0 to |search|
        invariant params == Collect(search[..i], find, ToCriteria)
      {
        var matcher := find(search[i]);
        if matcher.Some? {
          params := params + [SearchRepository.SearchCriteria(matcher.value.g1, matcher.value.g2, matcher.value.g3)];
        }
        assert search[..i + 1][..i] == search[..i];
      }
      assert search[..|search|] == search;
    }
    r := SearchRepository.FindAllUsersByCriteria(pageable, params);
  }

  // ----------------------------------------------------------------------
  // getUsersBySpecifications

  /** `\p{Punct}`: the ASCII punctuation characters. */
  predicate IsPunct(c: char)
  {
    ('!' <= c <= '/') || (':' <= c <= '@') || ('[' <= c <= '`') || ('{' <= c <= '~')
  }

  /** The characters `.` does not match: Java's line terminators. */
  predicate IsLineTerminator(c: char)
  {
    c == '\n' || c == '\r' || c == '\U{0085}' || c == '\U{2028}' || c == '\U{2029}'
  }

  /** Greedy `\p{Punct}?` at the start of `s`. */
  function OptionalPunct(s: string): string
  {
    if |s| > 0 && IsPunct(s[0]) then [s[0]] else []
  }

  /** Greedy `.*` at the start of `s`: the length of the longest prefix without a line terminator. */
  function AnyRun(s: string): (n: nat)
    ensures n <= |s|
    ensures forall i :: 0 <= i < n ==> !IsLineTerminator(s[i])
    ensures n == |s| || IsLineTerminator(s[n])
  {
    if |s| == 0 || IsLineTerminator(s[0]) then 0 else 1 + AnyRun(s[1..])
  }

  /** Groups 3 to 5 of the specification pattern. */
  datatype TailGroups = TailGroups(prefix: string, value: string, suffix: string)

  /**
   * `(\p{Punct}?)(.*)(\p{Punct}?)` matched against the text after the
   * operation. No part can fail, so the engine keeps its first choice for
   * each: one punctuation character if there is one, then the longest run
   * up to a line terminator, then an optional punctuation character, which
   * can only be empty since the run stopped at the end or at a terminator.
   */
  function MatchTail(rest: string): (t: TailGroups)
    ensures t.suffix == ""
    ensures |t.prefix| <= 1 && (t.prefix != "" ==> IsPunct(t.prefix[0]))
    ensures t.prefix == "" ==> rest == "" || !IsPunct(rest[0])
    ensures t.prefix + t.value <= rest
    ensures forall i :: 0 <= i < |t.value| ==> !IsLineTerminator(t.value[i])
    ensures |t.prefix + t.value| == |rest| || IsLineTerminator(rest[|t.prefix + t.value|])
  {
    var g3 := OptionalPunct(rest);
    var afterPrefix := rest[|g3|..];
    var n := AnyRun(afterPrefix);
    var g5 := OptionalPunct(afterPrefix[n..]);
    assert rest[..|g3| + n] == g3 + afterPrefix[..n];
    TailGroups(g3, afterPrefix[..n], g5)
  }

  /** What the specification pattern's first two groups match: the key, the
      operation, and the text that follows the operation. */
  datatype SpecHead = SpecHead(key: string, operation: string, rest: string)

  /** A call `builder.with(key, operation, value, prefix, suffix)`. */
  datatype WithCall = WithCall(key: string, operation: string, value: string, prefix: string, suffix: string)

  /** The builder call for one match: groups 1, 2, 4, 3 and 5, in that order. */
  function ToWithCall(h: SpecHead): (c: WithCall)
    ensures c.key == h.key && c.operation == h.operation
    ensures c.value == MatchTail(h.rest).value && c.prefix == MatchTail(h.rest).prefix
    ensures c.suffix == ""
  {
    var t := MatchTail(h.rest);
    WithCall(h.key, h.operation, t.value, t.prefix, t.suffix)
  }

  /** `UserSpecificationsBuilder`, as far as the calls it receives go. */
  class SpecificationsBuilder {
    var calls: seq<WithCall>

    constructor ()
      ensures calls == []
    {
      calls := [];
    }

    method With(key: string, operation: string, value: string, prefix: string, suffix: string)
      modifies this
      ensures calls == old(calls) + [WithCall(key, operation, value, prefix, suffix)]
    {
      calls := calls + [WithCall(key, operation, value, prefix, suffix)];
    }
  }

  /**
   * `getUsersBySpecifications`, up to `builder.build()`: a fresh builder
   * receives one `with` call per matching search string, in input order.
   */
  method GetUsersBySpecifications(search: seq<string>, head: string -> Option<SpecHead>)
    returns (calls: seq<WithCall>)
    ensures calls == Collect(search, head, ToWithCall)
  {
    var builder := new SpecificationsBuilder();
    if |search| > 0 {
      for i := 0 to |search|
        invariant builder.calls == Collect(search[..i], head, ToWithCall)
      {
        var matcher := head(search[i]);
        if matcher.Some? {
          var tail := MatchTail(matcher.value.rest);
          builder.With(matcher.value.key, matcher.value.operation, tail.value, tail.prefix, tail.suffix);
        }
        assert search[..i + 1][..i] == search[..i];
      }
      assert search[..|search|] == search;
    }
    calls := builder.calls;
  }

  /** The suffix argument of every builder call is empty, and the prefix is at most one
      punctuation character. */
  lemma {:induction false} SpecificationSuffixEmpty(search: seq<string>, head: string -> Option<SpecHead>)
    ensures forall c :: c in Collect(search, head, ToWithCall) ==>
      c.suffix == "" && |c.prefix| <= 1 && (c.prefix != "" ==> IsPunct(c.prefix[0]))
  {
    if search != [] {
      SpecificationSuffixEmpty(search[..|search| - 1], head);
    }
  }

  /** A quoted value: the opening quote becomes the prefix, the closing one stays in the value. */
  lemma QuotedValue()
    ensures MatchTail("'John'") == TailGroups("'", "John'", "")
  {
    assert OptionalPunct("'John'") == "'";
    assert "'John'"[1..] == "John'";
  }

  // ----------------------------------------------------------------------
  // toUserList

  /** The columns of a user row that the response mapping reads. */
  datatype UserRecord = UserRecord(
    id: int, firstName: Option<string>, lastName: Option<string>, email: Option<string>, phone: Option<string>)

  datatype UserDetailResponse = UserDetailResponse(
    id: int, firstName: Option<string>, lastName: Option<string>, email: Option<string>, phone: Option<string>)

  datatype UserListResponse = UserListResponse(
    users: seq<UserDetailResponse>, pageNo: int, pageSize: int, totalPage: int)

  /** `firstName + " " + lastName` as Java concatenates it (a null prints as "null"). */
  function FullName(first: Option<string>, last: Option<string>): string
  {
    ValueOf(first) + " " + ValueOf(last)
  }

  /** A first name without spaces can be read back from the full name: it runs up to the first space. */
  lemma FullNameSplits(first: string, last: string)
    requires ' ' !in first
    ensures IndexOf(FullName(Some(first), Some(last)), ' ') == |first|
    ensures FullName(Some(first), Some(last))[..|first|] == first
    ensures FullName(Some(first), Some(last))[|first| + 1..] == last
  {
    var s := FullName(Some(first), Some(last));
    assert s == first + " " + last;
    assert s[..|first|] == first && s[|first|] == ' ';
  }

  /** The response for one row: id, full name, email and phone; the last name is left unset. */
  function ToDetail(u: UserRecord): UserDetailResponse
  {
    UserDetailResponse(u.id, Some(FullName(u.firstName, u.lastName)), None, u.email, u.phone)
  }

  /** The stream `map` over a page's rows. */
  function ToDetails(us: seq<UserRecord>): (r: seq<UserDetailResponse>)
    ensures |r| == |us|
    ensures forall i :: 0 <= i < |us| ==>
      && r[i].id == us[i].id
      && r[i].firstName == Some(FullName(us[i].firstName, us[i].lastName))
      && r[i].lastName.None?
      && r[i].email == us[i].email && r[i].phone == us[i].phone
  {
    if us == [] then [] else [ToDetail(us[0])] + ToDetails(us[1..])
  }

  /** `toUserList`: one response per row in page order, and the page's number,
      size and page count copied unchanged. */
  function ToUserList(users: Page<UserRecord>): (r: UserListResponse)
    ensures |r.users| == |users.content|
    ensures forall i :: 0 <= i < |users.content| ==> r.users[i] == ToDetail(users.content[i])
    ensures r.pageNo == users.number && r.pageSize == users.size && r.totalPage == users.totalPages
  {
    UserListResponse(ToDetails(users.content), users.number, users.size, users.totalPages)
  }

  // ----------------------------------------------------------------------
  // addUser

  /**
   * The request body. Its address set is the sequence of its elements in the
   * order the set yields them; each element is its own request object
   * (`Address` does not override `equals`), so two value-equal addresses are
   * two elements. A body without "addresses" leaves the set null.
   */
  datatype UserCreationRequest = UserCreationRequest(
    firstName: Option<string>, lastName: Option<string>, dateOfBirth: Option<string>,
    gender: Option<Gender>, phone: Option<string>, email: Option<string>,
    username: Option<string>, password: Option<string>, userType: Option<UserType>,
    addresses: Option<seq<AddressDetails>>)

  /** The request's columns are on the entity and its status is `none`; the request has no status. */
  ghost predicate CopiedFrom(e: UserEntity, req: UserCreationRequest)
    reads e
  {
    && e.firstName == req.firstName && e.lastName == req.lastName && e.dateOfBirth == req.dateOfBirth
    && e.gender == req.gender && e.phone == req.phone && e.email == req.email
    && e.username == req.username && e.password == req.password && e.userType == req.userType
    && e.status == Some(none)
  }

  /** The new entity before its addresses: the request's columns and status `none`. */
  method NewUser(req: UserCreationRequest) returns (entity: UserEntity)
    ensures fresh(entity)
    ensures CopiedFrom(entity, req) && entity.addressEntities == Some({})
  {
    entity := new UserEntity();
    entity.firstName := req.firstName;
    entity.lastName := req.lastName;
    entity.dateOfBirth := req.dateOfBirth;
    entity.gender := req.gender;
    entity.phone := req.phone;
    entity.email := req.email;
    entity.username := req.username;
    entity.password := req.password;
    entity.userType := req.userType;
    entity.status := Some(none);
  }

  /** One iteration of the address loop: a new address entity built from `d` and saved on `entity`. */
  method SaveNewAddress(entity: UserEntity, d: AddressDetails) returns (address: AddressEntity)
    modifies entity`addressEntities
    requires entity.addressEntities.Some?
    requires forall a :: a in entity.Addresses() ==> a.user == entity
    ensures fresh(address) && address.details == d
    ensures forall a :: a in entity.Addresses() ==> a.user == entity
    ensures entity.addressEntities.Some? && entity.Addresses() == old(entity.Addresses()) + {address}
    ensures |entity.Addresses()| == |old(entity.Addresses())| + 1
  {
    address := new AddressEntity(d);
    assert address !in entity.Addresses();
    entity.SaveAddress(address);
  }

  /**
   * `addUser`, up to `userRepository.save`: a new entity takes the
   * request's columns and status `none`, and every requested address, in
   * the order the request's set yields them, becomes its own new address
   * entity saved on it. `saved` lists those entities in that order. A null
   * address set fails on `forEach`.
   */
  method AddUser(req: UserCreationRequest) returns (r: Result<UserEntity, ServiceError>, ghost saved: seq<AddressEntity>)
    ensures r.Success? <==> req.addresses.Some?
    ensures r.Failure? ==> r.error == NullPointer
    ensures r.Success? ==>
      var entity := r.value;
      && fresh(entity)
      && CopiedFrom(entity, req)
      && entity.addressEntities.Some?
      && |saved| == |req.addresses.value| == |entity.Addresses()|
      && (forall i :: 0 <= i < |saved| ==> saved[i].details == req.addresses.value[i])
      && (forall a :: a in entity.Addresses() <==> a in saved)
      && (forall a :: a in entity.Addresses() ==> fresh(a) && a.user == entity)
  {
    var entity := NewUser(req);
    if req.addresses.None? {
      return Failure(NullPointer), [];
    }
    var addresses := req.addresses.value;
    saved := [];
    for i := 0 to |addresses|
      invariant CopiedFrom(entity, req)
      invariant entity.addressEntities.Some?
      invariant |saved| == i == |entity.Addresses()|
      invariant forall k :: 0 <= k < i ==> saved[k].details == addresses[k]
      invariant forall a :: a in entity.Addresses() <==> a in saved
      invariant forall a :: a in entity.Addresses() ==> fresh(a) && a.user == entity
    {
      var address := SaveNewAddress(entity, addresses[i]);
      saved := saved + [address];
      assert CopiedFrom(entity, req);
    }
    r := Success(entity);
  }
}
