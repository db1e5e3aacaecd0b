/**
 * The persistent user and address entities, as far as the core touches
 * them: `UserEntity.saveAddress` inserts an address into the user's address
 * set in place and points the address back at the user.
 */
module Model {
  import opened Wrappers

  datatype Gender = male | female | other
  datatype UserType = sysadmin | admin | manager | user
  datatype UserStatus = active | inactive | none

  /** The address data the builder in `addUser` copies from the request. */
  datatype AddressDetails = AddressDetails(
    apartmentNumber: Option<string>, floor: Option<string>, building: Option<string>,
    streetNumber: Option<string>, street: Option<string>, city: Option<string>,
    country: Option<string>, addressType: Option<int>)

  class AddressEntity {
    /** The address columns, fixed when the address is built. */
    const details: AddressDetails
    /** The owning user (the `user_id` column); null until `saveAddress` sets it. */
    var user: UserEntity?

    constructor (details: AddressDetails)
      ensures this.details == details && user == null
    {
      this.details := details;
      user := null;
    }
  }

  class UserEntity {
    var firstName: Option<string>
    var lastName: Option<string>
    var dateOfBirth: Option<string>
    var gender: Option<Gender>
    var phone: Option<string>
    var email: Option<string>
    var username: Option<string>
    var password: Option<string>
    var userType: Option<UserType>
    var status: Option<UserStatus>
    /** A Java field that may be null (an entity built without the field initialiser). */
    var addressEntities: Option<set<AddressEntity>>

    /** `new UserEntity()`: every column null, the address set empty. */
    constructor ()
      ensures firstName.None? && lastName.None? && dateOfBirth.None? && gender.None?
      ensures phone.None? && email.None? && username.None? && password.None?
      ensures userType.None? && status.None?
      ensures addressEntities == Some({})
    {
      firstName, lastName, dateOfBirth, gender := None, None, None, None;
      phone, email, username, password := None, None, None, None;
      userType, status := None, None;
      addressEntities := Some({});
    }

    /** The addresses the user holds; a null set holds none. */
    function Addresses(): (r: set<AddressEntity>)
      reads this
      ensures addressEntities.Some? ==> r == addressEntities.value
      ensures addressEntities.None? ==> r == {}
    {
      if addressEntities.Some? then addressEntities.value else {}
    }

    /**
     * `saveAddress`: a null argument changes nothing; otherwise a null set is
     * first replaced by an empty one, the address is added with set semantics,
     * and its back-reference is set to this user. The frame lets only the
     * address set and the address's user field change.
     */
    method SaveAddress(address: AddressEntity?)
      modifies this`addressEntities, (if address == null then {} else {address})`user
      ensures address == null ==> addressEntities == old(addressEntities)
      ensures address != null ==> addressEntities == Some(old(Addresses()) + {address})
      ensures address != null ==> address.user == this
      ensures address != null && address in old(Addresses()) ==> addressEntities == old(addressEntities)
    {
      if address != null {
        ghost var before := Addresses();
        assert address in before ==> before + {address} == before;
        if addressEntities.None? {
          addressEntities := Some({});
        }
        addressEntities := Some(addressEntities.value + {address});
        address.user := this;
      }
    }
  }
}
