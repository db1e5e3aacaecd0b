# User service core, modelled in Dafny

This project models the request-shaping core of a Spring Boot user-management
service backed by PostgreSQL:

- **`UserService`** turns caller input into repository requests:
  - page-number conversion;
  - parsing of repeated `sort` and `search` strings through compiled patterns;
  - the specification builder calls;
  - the mapping of result pages to list responses;
  - building a new user entity with its addresses.
- **`SearchRepository`** builds the two query kinds:
  - a criteria query that folds search criteria into one predicate, with offset paging;
  - a customised JPQL query whose WHERE text is grown with a `StringBuilder`, with named parameters bound for the present filters.
- **`UserEntity.saveAddress`** adds an address to a user and sets the address's back-reference.
- **`GlobalExceptionHandler`** maps each exception kind to an error body: status, path, label and message text.
- **`UserTypeSubSetValidator`** accepts a user type when it is absent or listed in the constraint.

Files and modules:

| file | module | contents |
|---|---|---|
| `wrappers.dfy` | `Wrappers` | `Option`, `Result` |
| `java_text.dfy` | `JavaText` | `indexOf`, `lastIndexOf`, `substring` (with its exception), `replace(t, "")`, `hasLength`, `String.valueOf`, `equalsIgnoreCase("asc")` |
| `paging.dfy` | `Paging` | sort orders, `PageRequest.of` and its argument checks, pages, the `(int)` cast |
| `user_entity.dfy` | `Model` | enums, `AddressEntity`, `UserEntity` and `saveAddress` (classes updated in place) |
| `search_repository.dfy` | `SearchRepository` | both repository queries |
| `user_service.dfy` | `UserService` | the service operations |
| `exception_handler.dfy` | `GlobalExceptionHandler` | the four handlers and the dispatch between them |
| `validator.dfy` | `Validator` | `UserTypeSubSetValidator` |

Modelling choices:

- Java `null` is `None` of `Option`. A Java exception thrown by the core (`substring` out of range, `PageRequest.of`, `new Sort.Order` or `setFirstResult` refusing an argument, a `NullPointerException` on a null request part) is the `Failure` case of a `Result`.
- The request's address `Set` is the sequence of its elements in the order the set yields them. `Address` does not override `equals`, so value-equal addresses are separate elements.
- The patterns behind `SORT_OPERATOR` and `SEARCH_OPERATOR`, and the first two groups of the specification pattern, are parameters returning the captured groups (`string -> Option<Groups>`). The classes that define them are not part of this model.
- The tail of the specification pattern, `(\p{Punct}?)(.*)(\p{Punct}?)`, is matched concretely:
  - the first optional punctuation character is greedy;
  - `.` stops at Java's line terminators;
  - so the fifth group is always empty.
- `with` takes a suffix argument that this pattern never fills.
- `Collect` is the common shape of the three parsing loops: one item per matching string, in input order.
- `UserSearchQueryCriteriaConsumer`'s combination rule is not shown. A folded predicate is therefore a symbolic term (`Restricted(base, criterion)`) that records exactly which criteria went in, and in which order.
- Objects the source mutates are classes with `modifies` frames: `UserEntity`, `AddressEntity`, the validator, and the `StringBuilder`, query and builder objects.
- A repository or service method allocates those objects locally and returns a value snapshot of what it hands on (`CriteriaPlan`, `CustomizeQueryPlan`, the list of builder calls).

## Model

| member | source | states |
|---|---|---|
| JavaText.IndexOf | src/main/java/com/sample/exception/GlobalExceptionHandler.java:71 | -1 exactly when the character is absent; otherwise the position of its first occurrence |
| JavaText.LastIndexOf | src/main/java/com/sample/exception/GlobalExceptionHandler.java:61-62 | -1 exactly when the character is absent; otherwise the position of its last occurrence |
| JavaText.Substring | src/main/java/com/sample/exception/GlobalExceptionHandler.java:63 | succeeds exactly when `0 <= begin <= end <= length`, with that slice; otherwise the out-of-bounds error with the offending indices |
| JavaText.Remove | src/main/java/com/sample/exception/GlobalExceptionHandler.java:57 | `replace(target, "")` never lengthens the text |
| JavaText.RemoveUnchangedIff | src/main/java/com/sample/exception/GlobalExceptionHandler.java:57 | the replacement leaves a text unchanged if and only if the target does not occur in it |
| JavaText.RemoveLeading | src/main/java/com/sample/exception/GlobalExceptionHandler.java:57 | a leading occurrence of the target is dropped and scanning resumes after it |
| JavaText.ValueOf | src/main/java/com/sample/service/UserService.java:275 | a null string concatenates as "null", any other as itself |
| Paging.PageRequestOf | src/main/java/com/sample/service/UserService.java:180 | succeeds exactly when page >= 0 and size >= 1, keeping page, size and sort; a negative page is reported first, then a size below one |
| Paging.ToInt | src/main/java/com/sample/repository/SearchRepository.java:48 | the `(int)` cast lands in the 32-bit range, agrees with its argument modulo 2^32, and is the identity on values that fit |
| Model.UserEntity.constructor | src/main/java/com/sample/model/UserEntity.java:62 | a new user has no column set and an empty address set |
| Model.UserEntity.SaveAddress | src/main/java/com/sample/model/UserEntity.java:64-73 | a null address changes nothing; otherwise a null set is first replaced by an empty one, the new set is the old set plus the address, re-adding a held address changes nothing, and the address's user becomes this user; nothing else may change |
| SearchRepository.FoldRecordsCriteria | src/main/java/com/sample/repository/SearchRepository.java:40-43 | folding criteria into a predicate records exactly those criteria, in list order, after the ones already in it |
| SearchRepository.FoldAppend | src/main/java/com/sample/repository/SearchRepository.java:42 | folding two lists one after the other is folding their concatenation |
| SearchRepository.FoldInjective | src/main/java/com/sample/repository/SearchRepository.java:40-43 | two criteria lists give the same predicate only if they are equal, so no criterion is lost or reordered |
| SearchRepository.CriteriaConsumer.Accept | src/main/java/com/sample/repository/SearchRepository.java:42 | accepting a criterion folds it into the consumer's predicate |
| SearchRepository.JpaQuery.SetFirstResult | src/main/java/com/sample/repository/SearchRepository.java:48 | a negative row position is refused and leaves the query as it was; otherwise it becomes the first result |
| SearchRepository.JpaQuery.SetMaxResults | src/main/java/com/sample/repository/SearchRepository.java:49 | a negative limit is refused; otherwise it becomes the row limit |
| SearchRepository.JpaQuery.SetParameter | src/main/java/com/sample/repository/SearchRepository.java:92 | the named parameter is bound to the value and every other binding is kept |
| SearchRepository.FindAllUsersByCriteria | src/main/java/com/sample/repository/SearchRepository.java:35-61 | the predicate folds every criterion into the conjunction in list order; the list and count queries use that same predicate; the first row is `(int)` of the page offset (refused when the cast makes it negative); the limit is the page size and the page request is passed on |
| SearchRepository.CriteriaOffsetExact | src/main/java/com/sample/repository/SearchRepository.java:48 | the first row is the true offset `page * size` whenever that fits in an `int` |
| SearchRepository.CriteriaOffsetWraps | src/main/java/com/sample/repository/SearchRepository.java:48 | page 1 100 000 of size 2000 wraps to a negative first row |
| SearchRepository.StringBuilder.Append | src/main/java/com/sample/repository/SearchRepository.java:77 | appending extends the contents by exactly the text |
| SearchRepository.Clauses | src/main/java/com/sample/repository/SearchRepository.java:76-84 | one clause per present filter (a non-empty first or last name, a non-null gender), each clause present exactly when its filter is, in fixed first-name, last-name, gender order |
| SearchRepository.WhereIsBaseAndClauses | src/main/java/com/sample/repository/SearchRepository.java:74-84 | the WHERE text is `" WHERE 1=1"` followed by exactly those clauses |
| SearchRepository.Bindings | src/main/java/com/sample/repository/SearchRepository.java:90-100 | a parameter is bound exactly for each present filter, to that filter's value, and no other name is bound |
| SearchRepository.BuildWhere | src/main/java/com/sample/repository/SearchRepository.java:74-84 | the `StringBuilder` appends produce the WHERE text |
| SearchRepository.BindFilters | src/main/java/com/sample/repository/SearchRepository.java:91-99 | the three conditional `setParameter` calls on a fresh query bind exactly the present filters |
| SearchRepository.FindAllUsersByCustomizeQuery | src/main/java/com/sample/repository/SearchRepository.java:73-107 | the select and count queries embed the same WHERE text and the select ends with `ORDER BY u.id DESC`; the first row is the page number itself and the limit is the page size; exactly the present filters are bound; the answer carries the page request `(pageNo, pageSize)`; the count query has no parameter bound; a negative page number, a negative size and a zero size fail in that order |
| SearchRepository.CountTextPlaceholders | src/main/java/com/sample/repository/SearchRepository.java:74-104 | the placeholders the count text names are exactly the names the select query binds: every bound name occurs in it, and a placeholder occurs only when its filter is present |
| SearchRepository.CountQueryLeavesPlaceholderUnbound | src/main/java/com/sample/repository/SearchRepository.java:104 | with any filter present, the count text names a placeholder that the select query binds; together with `FindAllUsersByCustomizeQuery`'s empty count bindings, that placeholder is unbound on the count query |
| SearchRepository.FindAllUsersByCustomizeQueryBound | src/main/java/com/sample/repository/SearchRepository.java:90-104 | with the count query bound like the select query, a placeholder occurs in the count text if and only if it is bound on the count query |
| SearchRepository.WhereContainsAndIff | src/main/java/com/sample/repository/SearchRepository.java:90 | the `contains("AND")` guard holds if and only if at least one filter is present |
| SearchRepository.NoFilterNoClause | src/main/java/com/sample/repository/SearchRepository.java:74-100 | with no filter the WHERE text is exactly `" WHERE 1=1"` and nothing is bound |
| SearchRepository.FirstNameClauseOccursIff | src/main/java/com/sample/repository/SearchRepository.java:76-78 | the first-name clause occurs in the WHERE text if and only if a non-empty first name is given |
| SearchRepository.LastNameClauseOccursIff | src/main/java/com/sample/repository/SearchRepository.java:79-81 | the last-name clause occurs if and only if a non-empty last name is given |
| SearchRepository.GenderClauseOccursIff | src/main/java/com/sample/repository/SearchRepository.java:82-84 | the gender clause occurs if and only if a gender is given |
| SearchRepository.BindingsArePlaceholders | src/main/java/com/sample/repository/SearchRepository.java:90-100 | every bound parameter name occurs in the WHERE text |
| UserService.Collect | src/main/java/com/sample/service/UserService.java:169-177 | a parsing loop yields at most one item per input string |
| UserService.CollectAppend | src/main/java/com/sample/service/UserService.java:169-177 | the items of two runs of strings are those of the first run followed by those of the second, so input order is kept |
| UserService.CollectSingle | src/main/java/com/sample/service/UserService.java:170-176 | a matching string yields exactly one item built from its groups; a non-matching one yields nothing |
| UserService.CollectNoMatch | src/main/java/com/sample/service/UserService.java:167-177 | when no string matches (in particular for no strings at all) the list is empty, with no error |
| UserService.CurrentPage | src/main/java/com/sample/service/UserService.java:163-164 | a page number above 0 is lowered by one; 0 and below are kept |
| UserService.CurrentPageCollapses | src/main/java/com/sample/service/UserService.java:163-164 | page numbers 0 and 1 both ask for page 0, and any other two page numbers ask for different pages |
| UserService.ToOrder | src/main/java/com/sample/service/UserService.java:172-175 | the order is on the field in group 1, and it is ascending if and only if group 3 equals "asc" ignoring case |
| UserService.BlankSortStringSpoils | src/main/java/com/sample/service/UserService.java:170-175 | one matching sort string whose field has no text makes the list of orders unacceptable to `new Sort.Order`, wherever it stands |
| UserService.SortDirections | src/main/java/com/sample/service/UserService.java:172-175 | "ASC" and "aSc" sort ascending; "desc", "ascending" and "" sort descending |
| UserService.GetUsers | src/main/java/com/sample/service/UserService.java:160-180 | a null `sort` fails with a `NullPointerException`; otherwise an order whose field has no text fails with `new Sort.Order`'s exception, and then a negative page number or a size below one fails in `PageRequest.of`, in that order; the request is built exactly when none of these applies, with the converted page, the unchanged size and one order per matching sort string, in input order |
| UserService.GetUsersOptionalSort | src/main/java/com/sample/service/UserService.java:166-180 | with a missing sort parameter taken as no sort strings, no request fails with a `NullPointerException`, and a request without sort strings succeeds exactly when page number and size are acceptable, unsorted |
| UserService.CompoundSort | src/main/java/com/sample/service/UserService.java:166-180 | two sort strings give a compound order, the first one primary |
| UserService.GetUsersByCriteria | src/main/java/com/sample/service/UserService.java:192-205 | exactly one `SearchCriteria(g1, g2, g3)` per matching search string, in input order, is folded into the repository's predicate |
| UserService.AnyRun | src/main/java/com/sample/service/UserService.java:222 | `.*` takes the longest prefix without a line terminator |
| UserService.MatchTail | src/main/java/com/sample/service/UserService.java:222 | the prefix group is at most one punctuation character (taken whenever there is one), the value runs as far as `.` can go, and the suffix group is always empty |
| UserService.ToWithCall | src/main/java/com/sample/service/UserService.java:226 | the builder receives groups 1, 2, 4, 3 and 5 as key, operation, value, prefix and suffix |
| UserService.SpecificationsBuilder.With | src/main/java/com/sample/service/UserService.java:226 | each `with` call is recorded after the earlier ones |
| UserService.GetUsersBySpecifications | src/main/java/com/sample/service/UserService.java:217-229 | the builder receives exactly one call per matching search string, in input order |
| UserService.SpecificationSuffixEmpty | src/main/java/com/sample/service/UserService.java:222-226 | in every builder call the suffix is empty and the prefix is at most one punctuation character |
| UserService.QuotedValue | src/main/java/com/sample/service/UserService.java:222 | in `'John'` the opening quote becomes the prefix and the closing quote stays in the value |
| UserService.FullNameSplits | src/main/java/com/sample/service/UserService.java:275 | when the first name has no space, the full name splits at its first space back into first and last name |
| UserService.ToDetails | src/main/java/com/sample/service/UserService.java:273-279 | one response per user, in page order, with its id, full name, email and phone, and no last name |
| UserService.ToUserList | src/main/java/com/sample/service/UserService.java:272-287 | the responses map the page's users one to one, and page number, size and page count are copied unchanged |
| UserService.NewUser | src/main/java/com/sample/service/UserService.java:55-65 | the new entity carries the request's columns and status `none`; the request has no status |
| UserService.SaveNewAddress | src/main/java/com/sample/service/UserService.java:66-77 | a new address entity with the request's address columns joins the user's set, whose size grows by one, and every address held keeps this user as owner |
| UserService.AddUser | src/main/java/com/sample/service/UserService.java:52-80 | the call fails exactly when the address set is null, and then with a `NullPointerException`; otherwise it succeeds and the saved entity carries the request's columns and status `none`, and holds exactly one new address entity per element of the address set, in iteration order, each with that element's columns and owned by the user, so value-equal addresses are saved twice |
| GlobalExceptionHandler.Path | src/main/java/com/sample/exception/GlobalExceptionHandler.java:57 | the path is the request description with "uri=" removed, never longer |
| GlobalExceptionHandler.PathUnchangedIff | src/main/java/com/sample/exception/GlobalExceptionHandler.java:57 | the path equals the description if and only if the description does not contain "uri=" |
| GlobalExceptionHandler.PathOfUri | src/main/java/com/sample/exception/GlobalExceptionHandler.java:109 | `"uri=" + u` gives the path `u` when `u` contains no "uri=" |
| GlobalExceptionHandler.PayloadMessage | src/main/java/com/sample/exception/GlobalExceptionHandler.java:61-63 | the extraction succeeds exactly when `lastIndexOf('[') + 1 <= lastIndexOf(']') - 1`, giving the text between those positions (which holds no '['); a message without ']' always fails |
| GlobalExceptionHandler.PayloadOfDefaultMessage | src/main/java/com/sample/exception/GlobalExceptionHandler.java:60-65 | a message ending in `[text]] ` yields exactly `text`, whatever precedes it |
| GlobalExceptionHandler.ParameterMessage | src/main/java/com/sample/exception/GlobalExceptionHandler.java:71 | the text after the first space, or the whole message when it has no space |
| GlobalExceptionHandler.ParameterMessageDropsPath | src/main/java/com/sample/exception/GlobalExceptionHandler.java:71 | `path + " " + text` with a space-free path gives `text` |
| GlobalExceptionHandler.HandleValidationException | src/main/java/com/sample/exception/GlobalExceptionHandler.java:53-78 | status 400 and the stripped path. "Invalid payload" with the bracket text (and the `substring` exception when that fails) for an invalid argument; "Invalid parameter" with the message as is for a missing parameter; "Invalid parameter" with the text after the first space for a constraint violation; "Invalid data" with the message as is for anything else |
| GlobalExceptionHandler.HandleResourceNotFoundException | src/main/java/com/sample/exception/GlobalExceptionHandler.java:106-115 | status 404, "Not Found", the stripped path and the message verbatim |
| GlobalExceptionHandler.HandleDuplicateKeyException | src/main/java/com/sample/exception/GlobalExceptionHandler.java:142-151 | status 409, "Conflict", the stripped path and the message verbatim |
| GlobalExceptionHandler.HandleException | src/main/java/com/sample/exception/GlobalExceptionHandler.java:178-188 | status 500, "Internal Server Error", the stripped path and the message verbatim |
| GlobalExceptionHandler.Handle | src/main/java/com/sample/exception/GlobalExceptionHandler.java:34-36 | the status is 400 exactly for the four validation kinds; 404, 409 and 500 bodies for not-found, duplicate-key and other exceptions; only an invalid-argument message can make the handler itself throw |
| GlobalExceptionHandler.MessageVerbatim | src/main/java/com/sample/exception/GlobalExceptionHandler.java:66-74 | every kind except invalid argument and constraint violation gets its message through unchanged |
| Validator.ListContains | src/main/java/com/sample/validator/UserTypeSubSetValidator.java:22 | `Arrays.asList(subset).contains(value)` holds exactly when the value is in the subset |
| Validator.UserTypeSubSetValidator.Initialize | src/main/java/com/sample/validator/UserTypeSubSetValidator.java:16-18 | the subset becomes exactly the constraint's `anyOf` |
| Validator.UserTypeSubSetValidator.IsValid | src/main/java/com/sample/validator/UserTypeSubSetValidator.java:20-23 | a null value is valid; a present one is valid if and only if it is in the subset; nothing is changed |
| Validator.EmptySubsetAcceptsOnlyNull | src/main/java/com/sample/validator/UserTypeSubSetValidator.java:17-22 | with an empty `anyOf` only null is valid |
| Validator.InitializedAccepts | src/main/java/com/sample/validator/UserTypeSubSetValidator.java:16-23 | after initialisation a user type is accepted exactly when the constraint lists it |

## Left out

- The patterns `SORT_OPERATOR`, `SEARCH_OPERATOR` and the operation list of the specification pattern: their constants are not part of this model, so their matches are parameters.
- `UserSpecificationsBuilder`, `UserSearchQueryCriteriaConsumer` and `SearchOperation`: these classes are not part of this model. The builder's `build()` and the consumer's predicate construction are kept symbolic.
- Query execution and result counting (`getResultList`, `getSingleResult`, `findAll`, `save`), and `PageImpl`'s total-page arithmetic: these are library and database behaviour.
- Whether the JPA provider accepts parameter names written with a leading colon (`":firstName"`): names are recorded as written, and resolving them is library behaviour.
- The response of `getUsersByCustomizeQuery`, which copies the repository's page into a list response: it is the page mapping without a per-row conversion.
- `updateUser` and `changeStatus` have empty bodies, and `deleteUser` only delegates to the repository.
- `getUser` copies the id it was given and four columns of the fetched entity into a response (src/main/java/com/sample/service/UserService.java:119-130), and `getUsers(Pageable)` maps the page's rows as `ToDetails` does (src/main/java/com/sample/service/UserService.java:139-149): beyond the repository fetch, neither adds a promise to the model.
- Dafny strings are sequences of Unicode scalar values, not UTF-16 code units, so `GlobalExceptionHandler`'s `substring(start + 1, end - 1)` cannot split a surrogate pair here, as it can in Java when a character outside the Basic Multilingual Plane comes just before the last `]`.
- UserService.AddUser: a null element inside the address set, which would make the loop throw, is not modelled; the elements are address values.
- `UserController`, `AppConfig` and the request DTO annotations: routing, CORS and declarative validation are framework configuration.
- Timestamps (`new Date()`), logging, transactions, Swagger annotations, and `response.setStatus` in the 500 handler: these are I/O or framework side effects.
- Exceptions with a null message, and null pattern groups: messages and groups are plain strings.
- Unicode case mapping beyond the characters that can equal "asc" ignoring case.
- `HashSet` iteration order: the address set's elements are taken in the order of the sequence given, which stands for whatever order the set yields. Entities are distinct objects, compared by identity.
- Validator.UserTypeSubSetValidator.IsValid: the case of a non-null value before `initialize` is excluded by a precondition. The validation framework always initialises a validator first; the Java code would throw a `NullPointerException`.
- SearchRepository.FindAllUsersByCriteria: takes a page request whose page is not negative and whose size is at least one, both within `int`, as every `Pageable` Spring builds is. Page numbers that overflow `getOffset()`'s 64-bit product are not modelled.

## Findings

| source | as written | input that shows it | evidently intended | confidence | as-written member | corrected member |
|---|---|---|---|---|---|---|
| src/main/java/com/sample/repository/SearchRepository.java:104 | the count query embeds the WHERE text with its named placeholders, but no parameter is ever bound on it | `firstName = "John"`: the count text ends in `u.firstName=:firstName`, a name bound only on the select query (`CountQueryLeavesPlaceholderUnbound`) | the count query is bound like the select query, so that it can run | likely; not executed | SearchRepository.FindAllUsersByCustomizeQuery | SearchRepository.FindAllUsersByCustomizeQueryBound |
| src/main/java/com/sample/service/UserService.java:167 | `sort.length` is read without a null check, while the controller declares the sort parameter optional | a sorted-list request without any `sort` parameter: `sort` is null and `GetUsers` fails with a `NullPointerException` | a request without sort strings lists the page unsorted | likely; not executed | UserService.GetUsers | UserService.GetUsersOptionalSort |
