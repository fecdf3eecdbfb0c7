/**
 * The dashboard's local copy of the users collection and the pure
 * transformations the handlers apply to it after a successful remote call:
 * remove by id, edit by id with a shallow merge, and append on create with a
 * client-computed id.
 */
module UserList {
  import opened Wrappers
  import opened JsValues

  /** The collection in display order. */
  type Users = seq<Record>

  /** `user.id` */
  function IdOf(u: Record): Value {
    Get(u, "id")
  }

  /** No two entries share an id under strict equality. */
  predicate UniqueIds(users: Users) {
    forall i, j | 0 <= i < j < |users| :: IdOf(users[i]) != IdOf(users[j])
  }

  /** The number of entries whose id is strictly equal to `id`. */
  function CountId(users: Users, id: Value): nat {
    if users == [] then 0
    else (if IdOf(users[0]) == id then 1 else 0) + CountId(users[1..], id)
  }

  /** `xs` is `ys` with some entries taken out and the rest in their original order. */
  predicate IsSubsequence(xs: Users, ys: Users)
    decreases |ys|
  {
    if xs == [] then true
    else if ys == [] then false
    else (xs[0] == ys[0] && IsSubsequence(xs[1..], ys[1..])) || IsSubsequence(xs, ys[1..])
  }

  // ---------------------------------------------------------------------------
  // Delete: `users.filter(user => user.id !== id)`
  // ---------------------------------------------------------------------------

  function Remove(users: Users, id: Value): (r: Users)
    ensures |r| <= |users|
    ensures forall i | 0 <= i < |r| :: IdOf(r[i]) != id
  {
    if users == [] then []
    else if IdOf(users[0]) != id then [users[0]] + Remove(users[1..], id)
    else Remove(users[1..], id)
  }

  /** An entry survives the delete exactly when it was there and its id differs. */
  lemma {:induction false} RemoveMembers(users: Users, id: Value, u: Record)
    ensures u in Remove(users, id) <==> u in users && IdOf(u) != id
  {
    if users != [] {
      RemoveMembers(users[1..], id, u);
      assert users == [users[0]] + users[1..];
    }
  }

  /** The length drops by exactly the number of entries carrying the id. */
  lemma {:induction false} RemoveLength(users: Users, id: Value)
    ensures |Remove(users, id)| == |users| - CountId(users, id)
  {
    if users != [] {
      RemoveLength(users[1..], id);
    }
  }

  lemma {:induction false} SubsequenceOfTail(xs: Users, ys: Users)
    requires ys != [] && IsSubsequence(xs, ys[1..])
    ensures IsSubsequence(xs, ys)
  {
  }

  /** The surviving entries keep their relative order. */
  lemma {:induction false} RemoveKeepsOrder(users: Users, id: Value)
    ensures IsSubsequence(Remove(users, id), users)
  {
    if users != [] {
      RemoveKeepsOrder(users[1..], id);
      var r := Remove(users, id);
      if IdOf(users[0]) != id {
        assert r[0] == users[0] && r[1..] == Remove(users[1..], id);
      } else if r != [] {
        SubsequenceOfTail(r, users);
      }
    }
  }

  /** Deleting an id that no entry carries leaves the collection as it was. */
  lemma {:induction false} RemoveAbsent(users: Users, id: Value)
    requires CountId(users, id) == 0
    ensures Remove(users, id) == users
  {
    if users != [] {
      RemoveAbsent(users[1..], id);
      assert users == [users[0]] + users[1..];
    }
  }

  /** Deleting keeps ids unique. */
  lemma {:induction false} RemoveKeepsUnique(users: Users, id: Value)
    requires UniqueIds(users)
    ensures UniqueIds(Remove(users, id))
  {
    if users != [] {
      RemoveKeepsUnique(users[1..], id);
      var r := Remove(users, id);
      if IdOf(users[0]) != id {
        forall j | 0 < j < |r| ensures IdOf(r[0]) != IdOf(r[j]) {
          RemoveMembers(users[1..], id, r[j]);
        }
      }
    }
  }

  // ---------------------------------------------------------------------------
  // Edit: `users.map(user => user.id === current.id ? {...current, ...values} : user)`
  // ---------------------------------------------------------------------------

  function ApplyEdit(users: Users, current: Record, values: Record): (r: Users)
    ensures |r| == |users|
    ensures forall i | 0 <= i < |users| && IdOf(users[i]) != IdOf(current) :: r[i] == users[i]
    ensures forall i | 0 <= i < |users| && IdOf(users[i]) == IdOf(current) :: r[i] == Spread(current, values)
  {
    if users == [] then []
    else
      [if IdOf(users[0]) == IdOf(current) then Spread(current, values) else users[0]]
      + ApplyEdit(users[1..], current, values)
  }

  /**
   * An edited entry holds every submitted field, and every field of the entry
   * under edit that was not submitted; it has no other fields.
   */
  lemma EditedEntryFields(users: Users, current: Record, values: Record, i: int)
    requires 0 <= i < |users| && IdOf(users[i]) == IdOf(current)
    ensures ApplyEdit(users, current, values)[i].Keys == current.Keys + values.Keys
    ensures forall k | k in values :: ApplyEdit(users, current, values)[i][k] == values[k]
    ensures forall k | k in current && k !in values :: ApplyEdit(users, current, values)[i][k] == current[k]
  {
  }

  /** Editing with a form that submits no `id` leaves every id where it was. */
  lemma EditKeepsIds(users: Users, current: Record, values: Record)
    requires "id" !in values
    ensures forall i | 0 <= i < |users| :: IdOf(ApplyEdit(users, current, values)[i]) == IdOf(users[i])
  {
  }

  /** Editing with a form that submits no `id` keeps ids unique. */
  lemma EditKeepsUnique(users: Users, current: Record, values: Record)
    requires UniqueIds(users) && "id" !in values
    ensures UniqueIds(ApplyEdit(users, current, values))
  {
    EditKeepsIds(users, current, values);
  }

  // ---------------------------------------------------------------------------
  // Create: the candidate id and the appended entry
  // ---------------------------------------------------------------------------

  /** `users.map(user => Number(user.id) || 0)` */
  function IdNumbers(users: Users): (ns: seq<int>)
    ensures |ns| == |users|
    ensures forall i | 0 <= i < |users| :: ns[i] == NumberOrZero(IdOf(users[i]))
  {
    if users == [] then [] else [NumberOrZero(IdOf(users[0]))] + IdNumbers(users[1..])
  }

  /** `Math.max(...xs)` on a non-empty list: an element that no element exceeds. */
  function Max(xs: seq<int>): (m: int)
    requires |xs| > 0
    ensures m in xs
    ensures forall i | 0 <= i < |xs| :: xs[i] <= m
  {
    if |xs| == 1 then xs[0]
    else
      var rest := Max(xs[1..]);
      if xs[0] >= rest then xs[0] else rest
  }

  /** `users.length ? Math.max(...users.map(user => Number(user.id) || 0)) : 0` */
  function MaxId(users: Users): (m: int)
    ensures users == [] ==> m == 0
    ensures forall i | 0 <= i < |users| :: NumberOrZero(IdOf(users[i])) <= m
    ensures users != [] ==> exists i | 0 <= i < |users| :: NumberOrZero(IdOf(users[i])) == m
  {
    if |users| == 0 then 0
    else
      var ns := IdNumbers(users);
      var i :| 0 <= i < |ns| && ns[i] == Max(ns);
      Max(ns)
  }

  /**
   * The id the client picks for a new user, `maxId + 1`: 1 on an empty list;
   * otherwise one more than the largest `Number(id) || 0` of the list, so it
   * exceeds every entry's and is the least number that does.
   */
  function CandidateId(users: Users): (c: int)
    ensures users == [] ==> c == 1
    ensures forall i | 0 <= i < |users| :: NumberOrZero(IdOf(users[i])) < c
    ensures users != [] ==> exists i | 0 <= i < |users| :: NumberOrZero(IdOf(users[i])) == c - 1
  {
    MaxId(users) + 1
  }

  /** No entry already carries the candidate as its (numeric) id. */
  lemma CandidateIdFresh(users: Users)
    ensures forall i | 0 <= i < |users| :: IdOf(users[i]) != Num(CandidateId(users))
  {
    forall i | 0 <= i < |users| ensures IdOf(users[i]) != Num(CandidateId(users)) {
      assert NumberOrZero(IdOf(users[i])) < CandidateId(users);
    }
  }

  /**
   * Worked candidates on numeric ids: `[{id: 1}, {id: 3}]` gives 4, and
   * `[{id: -5}]` gives -4, because the maximum is not clamped at 0.
   */
  lemma CandidateIdExamples()
    ensures CandidateId([map["id" := Num(1)], map["id" := Num(3)]]) == 4
    ensures CandidateId([map["id" := Num(-5)]]) == -4
  {
    assert IdNumbers([map["id" := Num(1)], map["id" := Num(3)]]) == [1, 3];
    assert IdNumbers([map["id" := Num(-5)]]) == [-5];
  }

  /**
   * Worked candidates on string ids: `[{id: "x"}]` gives 1, because a
   * non-numeric id counts as 0, and `[{id: "7"}]` gives 8, because a numeric
   * string counts by its value.
   */
  lemma CandidateIdStringExamples()
    ensures CandidateId([map["id" := Str("x")]]) == 1
    ensures CandidateId([map["id" := Str("7")]]) == 8
  {
    NonNumericString("x");
    assert IdNumbers([map["id" := Str("x")]]) == [0];
    NumberOfIntString(7);
    assert IntToString(7) == "7";
    assert IdNumbers([map["id" := Str("7")]]) == [7];
  }

  /** `{ id: maxId + 1, ...values }`, the body of the create request. */
  function NewUserDraft(users: Users, values: Record): (draft: Record)
    ensures draft.Keys == values.Keys + {"id"}
    ensures IdOf(draft) == if "id" in values then values["id"] else Num(CandidateId(users))
    ensures forall k | k in values :: draft[k] == values[k]
  {
    Spread(map["id" := Num(CandidateId(users))], values)
  }

  /** `{ ...data, id: newUser.id }`: the server's echo with the client's id forced on it. */
  function CreatedEntry(draft: Record, data: Record): (u: Record)
    ensures u.Keys == data.Keys + {"id"}
    ensures IdOf(u) == IdOf(draft)
    ensures forall k | k in data && k != "id" :: u[k] == data[k]
  {
    Spread(data, map["id" := IdOf(draft)])
  }

  /**
   * Whatever id the server echoes, an appended entry for a form that submits
   * no `id` carries the candidate id, and the collection keeps unique ids.
   */
  lemma AppendKeepsUnique(users: Users, values: Record, data: Record)
    requires UniqueIds(users) && "id" !in values
    ensures IdOf(CreatedEntry(NewUserDraft(users, values), data)) == Num(CandidateId(users))
    ensures UniqueIds(users + [CreatedEntry(NewUserDraft(users, values), data)])
  {
    CandidateIdFresh(users);
  }

  // ---------------------------------------------------------------------------
  // The department: edit normalisation and the table's label
  // ---------------------------------------------------------------------------

  /** `company?.name` */
  function DepartmentName(company: Value): Value {
    OptionalMember(company, "name")
  }

  /** `{ ...user, company: { name: user.company?.name || '' } }` */
  function NormalizeForEdit(user: Record): (r: Record)
    ensures r.Keys == user.Keys + {"company"}
    ensures forall k | k in user && k != "company" :: r[k] == user[k]
    ensures r["company"] == Obj(map["name" := Or(DepartmentName(Get(user, "company")), Str(""))])
  {
    user["company" := Obj(map["name" := Or(DepartmentName(Get(user, "company")), Str(""))])]
  }

  /** The Department column: `company?.name || 'N/A'`. */
  function DepartmentLabel(company: Value): (shown: Value)
    ensures Truthy(shown)
    ensures Truthy(DepartmentName(company)) ==> shown == DepartmentName(company)
    ensures !Truthy(DepartmentName(company)) ==> shown == Str("N/A")
  {
    Or(DepartmentName(company), Str("N/A"))
  }

  /**
   * The department an edit starts from is the user's department name when it
   * is a non-empty string, and the empty string when the user has no company,
   * no name or an empty name.
   */
  lemma NormalizedDepartment(user: Record)
    ensures var name := DepartmentName(Get(user, "company"));
      && (name.Str? && name.s != "" ==> DepartmentName(Get(NormalizeForEdit(user), "company")) == name)
      && (name == Undefined || name == Str("") ==> DepartmentName(Get(NormalizeForEdit(user), "company")) == Str(""))
  {
  }

  /** Normalising for edit does not change what the table shows as the department. */
  lemma NormalizeKeepsLabel(user: Record)
    ensures DepartmentLabel(Get(NormalizeForEdit(user), "company")) == DepartmentLabel(Get(user, "company"))
  {
  }

  /** Normalising twice is normalising once. */
  lemma NormalizeIdempotent(user: Record)
    ensures NormalizeForEdit(NormalizeForEdit(user)) == NormalizeForEdit(user)
  {
  }
}
