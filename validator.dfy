/**
 * `UserTypeSubSetValidator`: accepts a user type when it is absent or one
 * of the types listed in the constraint's `anyOf`.
 */
module Validator {
  import opened Wrappers
  import opened Model

  /** The `@UserTypeSubset` constraint, as far as the validator reads it. */
  datatype UserTypeSubset = UserTypeSubset(anyOf: seq<UserType>)

  /** `Arrays.asList(xs).contains(x)`: a search from the front. */
  function ListContains(xs: seq<UserType>, x: UserType): (r: bool)
    ensures r <==> x in xs
  {
    if xs == [] then false
    else if xs[0] == x then true
    else ListContains(xs[1..], x)
  }

  class UserTypeSubSetValidator {
    /** The accepted types; unset until `Initialize`. */
    var subset: Option<seq<UserType>>

    constructor ()
      ensures subset.None?
    {
      subset := None;
    }

    /** Stores exactly the constraint's `anyOf`. */
    method Initialize(constraint: UserTypeSubset)
      modifies this
      ensures subset == Some(constraint.anyOf)
    {
      subset := Some(constraint.anyOf);
    }

    /** A missing value is always valid; a present one is valid exactly when it is in the subset. */
    function IsValid(value: Option<UserType>): (ok: bool)
      reads this
      requires value.Some? ==> subset.Some?
      ensures value.None? ==> ok
      ensures value.Some? ==> (ok <==> value.value in subset.value)
    {
      value.None? || ListContains(subset.value, value.value)
    }
  }

  /** With an empty `anyOf`, only a missing value is valid. */
  lemma EmptySubsetAcceptsOnlyNull(v: UserTypeSubSetValidator, value: Option<UserType>)
    requires v.subset == Some([])
    ensures v.IsValid(value) <==> value.None?
  {
  }

  /** After `Initialize`, a type is accepted exactly when the constraint lists it. */
  method InitializedAccepts(constraint: UserTypeSubset, t: UserType) returns (ok: bool)
    ensures ok <==> t in constraint.anyOf
  {
    var v := new UserTypeSubSetValidator();
    v.Initialize(constraint);
    ok := v.IsValid(Some(t));
  }
}
