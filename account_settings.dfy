/**
  The basic account settings view of the client
  (client/src/pages/Account/Settings/components/base.tsx): the validators of
  the geographic and phone fields, the avatar shown, and how the form is
  filled from the current user.

  A validator reports through `callback`, once per failed check and once more
  with no argument at the end, since it never returns early; it is modelled
  as the sequence of its callback arguments, `None` for the argument-less
  call.
*/
module BaseSettings {
  import opened Common
  import opened Js

  const NoAreaCode := "Please input your area code!"
  const NoPhoneNumber := "Please input your phone number!"
  const NoProvince := "Please input your province!"
  const NoCity := "Please input your city!"

  /** The avatar shown for a user without one of their own. */
  const DefaultAvatar := "https://gw.alipayobjects.com/zos/rmsportal/BiazfanxmamNRoxxVxka.png"

  /** A choice of the geographic selects; a missing `key` reads as `null`. */
  datatype SelectItem = SelectItem(labelText: string, key: Value)

  datatype Geographic = Geographic(province: SelectItem, city: SelectItem)

  /** `validatorGeographic`: the province is checked, then the city, then the closing call. */
  function ValidatorGeographic(value: Geographic): (calls: seq<Option<string>>)
    ensures 1 <= |calls| <= 3 && calls[|calls| - 1] == None
    ensures forall k :: 0 <= k < |calls| - 1 ==> calls[k].Some?
    ensures Some(NoProvince) in calls <==> !Truthy(value.province.key)
    ensures Some(NoCity) in calls <==> !Truthy(value.city.key)
    ensures !Truthy(value.province.key) ==> calls[0] == Some(NoProvince)
    ensures |calls| == 1 + (if Truthy(value.province.key) then 0 else 1) + (if Truthy(value.city.key) then 0 else 1)
  {
    var first := if !Truthy(value.province.key) then [Some(NoProvince)] else [];
    var second := if !Truthy(value.city.key) then [Some(NoCity)] else [];
    first + second + [None]
  }

  /** The area code is empty: nothing precedes the first `-`. */
  predicate AreaEmpty(value: string) {
    value == [] || value[0] == '-'
  }

  /** `value` has no `-`. */
  predicate NoDash(value: string) {
    forall i :: 0 <= i < |value| ==> value[i] != '-'
  }

  /**
    The phone number is missing or empty: there is no `-`, or the first `-` is
    the last character or is directly followed by another `-`.
  */
  predicate PhoneEmpty(value: string) {
    || NoDash(value)
    || exists i | 0 <= i < |value| ::
         value[i] == '-' && NoDash(value[..i]) && (i + 1 == |value| || value[i + 1] == '-')
  }

  /**
    `validatorPhone`: `value.split('-')`; the first piece empty is a missing
    area code, the second piece missing or empty is a missing phone number;
    later pieces are never looked at.
  */
  function ValidatorPhone(value: string): (calls: seq<Option<string>>)
    ensures calls == (if AreaEmpty(value) then [Some(NoAreaCode)] else [])
                     + (if PhoneEmpty(value) then [Some(NoPhoneNumber)] else [])
                     + [None]
    ensures calls[|calls| - 1] == None
  {
    var values := Split(value, "-");
    var areaMissing := values[0] == "";
    var phoneMissing := |values| < 2 || values[1] == "";
    assert areaMissing == AreaEmpty(value) by { SplitFirstPiece(value); }
    assert phoneMissing == PhoneEmpty(value) by { SplitSecondPiece(value); }
    var first := if areaMissing then [Some(NoAreaCode)] else [];
    var second := if phoneMissing then [Some(NoPhoneNumber)] else [];
    first + second + [None]
  }

  /** A one-character separator occurs at `j` exactly when that character is there. */
  lemma DashAt(s: string, j: int)
    ensures OccursAt(s, "-", j) <==> 0 <= j < |s| && s[j] == '-'
  {
    if 0 <= j < |s| {
      assert s[j..j + 1] == [s[j]];
    }
  }

  lemma NoDashContains(s: string)
    ensures NoDash(s) <==> !Contains(s, "-")
  {
    forall j ensures OccursAt(s, "-", j) <==> 0 <= j < |s| && s[j] == '-' {
      DashAt(s, j);
    }
  }

  /** Two positions that both hold the first `-` are the same. */
  lemma FirstDashUnique(value: string, i: nat, j: nat)
    requires i < |value| && value[i] == '-' && NoDash(value[..i])
    requires j < |value| && value[j] == '-' && NoDash(value[..j])
    ensures i == j
  {
  }

  /** With a `-` in `value`, the first piece ends at the first `-` and the rest follows it. */
  lemma SplitAtFirstDash(value: string)
    requires |Split(value, "-")| >= 2
    ensures var parts := Split(value, "-");
            var i := |parts[0]|;
            && i < |value| && value[i] == '-' && NoDash(value[..i])
            && value[i + 1..] == Join(parts[1..], "-")
  {
    var parts := Split(value, "-");
    SplitHead(value, "-");
    DashAt(value, |parts[0]|);
    NoDashContains(parts[0]);
  }

  /** The joined pieces after the first start with a `-` exactly when the second piece is empty. */
  lemma JoinedRestStart(parts: seq<string>)
    requires |parts| >= 3 && forall k :: 0 <= k < |parts| ==> !Contains(parts[k], "-")
    ensures var rest := Join(parts[1..], "-");
            rest != [] && (parts[1] == "" <==> rest[0] == '-')
  {
    var rest := Join(parts[1..], "-");
    JoinHead(parts[1..], "-");
    DashAt(rest, |parts[1]|);
    if parts[1] != "" {
      NoDashContains(parts[1]);
      assert rest[0] == parts[1][0];
    }
  }

  /** The first piece of `value.split('-')` is empty exactly when `value` is empty or starts with `-`. */
  lemma SplitFirstPiece(value: string)
    ensures Split(value, "-")[0] == "" <==> AreaEmpty(value)
  {
    var parts := Split(value, "-");
    if |parts| == 1 {
      NoDashContains(value);
    } else {
      SplitAtFirstDash(value);
    }
  }

  /** With the first `-` at `i`, the phone number is empty exactly when the `-` ends `value` or another follows it. */
  lemma PhoneEmptyAt(value: string, i: nat)
    requires i < |value| && value[i] == '-' && NoDash(value[..i])
    ensures PhoneEmpty(value) <==> (i + 1 == |value| || value[i + 1] == '-')
  {
    assert !NoDash(value);
    forall j | 0 <= j < |value| && value[j] == '-' && NoDash(value[..j]) ensures j == i {
      FirstDashUnique(value, i, j);
    }
  }

  /** The pieces after the first, joined, are empty or start with `-` exactly when the second piece is empty. */
  lemma SecondPieceEmpty(parts: seq<string>)
    requires |parts| >= 2 && forall k :: 0 <= k < |parts| ==> !Contains(parts[k], "-")
    ensures var rest := Join(parts[1..], "-");
            parts[1] == "" <==> (rest == [] || rest[0] == '-')
  {
    if |parts| > 2 {
      JoinedRestStart(parts);
    } else {
      assert Join(parts[1..], "-") == parts[1];
      if parts[1] != "" {
        NoDashContains(parts[1]);
      }
    }
  }

  /** The second piece of `value.split('-')` is missing or empty exactly when `PhoneEmpty` holds. */
  lemma SplitSecondPiece(value: string)
    ensures (|Split(value, "-")| < 2 || Split(value, "-")[1] == "") <==> PhoneEmpty(value)
  {
    var parts := Split(value, "-");
    if |parts| < 2 {
      NoDashContains(value);
    } else {
      var i := |parts[0]|;
      assert i < |value| && value[i] == '-' && NoDash(value[..i]) && value[i + 1..] == Join(parts[1..], "-") by {
        SplitAtFirstDash(value);
      }
      var rest := value[i + 1..];
      assert parts[1] == "" <==> (rest == [] || rest[0] == '-') by {
        SecondPieceEmpty(parts);
      }
      PhoneEmptyAt(value, i);
    }
  }

  /**
    `getAvatarURL`: the empty string with no user, the user's avatar if it is
    truthy, otherwise the default picture.
  */
  function AvatarURL(currentUser: Option<Object>): (url: Value)
    ensures currentUser.None? ==> url == Str("")
    ensures currentUser.Some? && TruthyAt(currentUser.value, "avatar") ==> url == currentUser.value["avatar"]
    ensures currentUser.Some? && !TruthyAt(currentUser.value, "avatar") ==> url == Str(DefaultAvatar)
  {
    if currentUser.Some? then
      if TruthyAt(currentUser.value, "avatar") then currentUser.value["avatar"] else Str(DefaultAvatar)
    else Str("")
  }

  /** An avatar is shown (the URL is truthy) exactly when there is a current user. */
  lemma AvatarShownIffUser(currentUser: Option<Object>)
    ensures Truthy(AvatarURL(currentUser)) <==> currentUser.Some?
  {
  }

  /** The fields of the form, in the order they are registered. */
  const FieldKeys: seq<string> := ["email", "name", "profile", "country", "geographic", "address", "phone"]

  /** The settings view: its current user and the form's field values. */
  class BaseView {
    const currentUser: Option<Object>
    var fieldValues: map<string, Value>

    ghost predicate Valid()
      reads this
    {
      fieldValues.Keys == set k | k in FieldKeys
    }

    /** The form starts with every field registered and empty. */
    constructor (currentUser: Option<Object>)
      ensures Valid() && this.currentUser == currentUser
      ensures forall k :: k in fieldValues ==> fieldValues[k] == Null
    {
      this.currentUser := currentUser;
      fieldValues := map k | k in FieldKeys :: Null;
    }

    /**
      `setBaseInfo`: with a current user, every field of the form, one after
      the other, gets the user's value under the same key, or `null` when
      that value is falsy or missing; with no user nothing changes.
    */
    method SetBaseInfo()
      requires Valid()
      modifies this`fieldValues
      ensures Valid()
      ensures currentUser.None? ==> fieldValues == old(fieldValues)
      ensures currentUser.Some? ==>
                forall k :: k in fieldValues ==> fieldValues[k] == OrNull(currentUser.value, k)
    {
      if currentUser.None? {
        return;
      }
      var user := currentUser.value;
      var keys := FieldKeys;
      for i := 0 to |keys|
        invariant Valid()
        invariant forall j :: 0 <= j < i ==> fieldValues[keys[j]] == OrNull(user, keys[j])
      {
        var key := keys[i];
        fieldValues := fieldValues[key := OrNull(user, key)];
      }
      forall k | k in fieldValues ensures fieldValues[k] == OrNull(user, k) {
        var j :| 0 <= j < |keys| && keys[j] == k;
      }
    }
  }
}
