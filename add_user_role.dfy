/**
 The `AddUserRole` middleware: after the wrapped handler has answered, a
 successful (200) answer to an authenticated request gets a `role` member in
 its JSON content: "admin" when the user holds the admin role, "user"
 otherwise. Every other answer goes back untouched.

 The content is the value `json_decode($content, true)` yields. Content that
 is not JSON decodes to `null`, which is `JNull` here. PHP then writes the
 `role` key into what it decoded: an object or `null` gets the key; `false` is
 turned into an empty array first; a list becomes an array keyed by its
 indices, which encodes as an object; any other decoded value is a scalar, and
 PHP throws when a key is written into it.

 The answer is `json_encode` of that array, so the members other than `role`
 come back as PHP re-encodes them (`Reencode`): an object decodes to an
 array, and an array whose keys are exactly `0..n-1` (the empty one included)
 encodes as a list.
 */
module AddUserRole {
  import opened Records
  import opened Text

  /** The authenticated user as the middleware sees it: the roles it holds. */
  datatype User = User(roles: set<string>)

  /** An answer of the wrapped handler: its status and decoded content. */
  datatype Reply = Reply(status: int, content: Json)

  const AdminRole := "admin"
  const DefaultRole := "user"
  const RoleKey := "role"
  const ScalarError := "Cannot use a scalar value as an array"

  /** `$user->hasRole('admin') ? 'admin' : 'user'`. */
  function RoleOf(u: User): (r: string)
    ensures r == "admin" <==> "admin" in u.roles
    ensures r == "admin" || r == "user"
  {
    if AdminRole in u.roles then AdminRole else DefaultRole
  }

  /** A PHP list as an array keyed by the decimal text of its indices. */
  function IndexKeys(items: seq<Json>): map<string, Json>
    decreases |items|
  {
    if items == [] then map[] else IndexKeys(items[..|items| - 1])[NatToString(|items| - 1) := items[|items| - 1]]
  }

  /** Each index of the list is a key holding that element. */
  lemma {:induction false} IndexKeysHold(items: seq<Json>, j: nat)
    requires j < |items|
    ensures NatToString(j) in IndexKeys(items) && IndexKeys(items)[NatToString(j)] == items[j]
    decreases |items|
  {
    var n := |items| - 1;
    if j < n {
      IndexKeysHold(items[..n], j);
      NatToStringInjective(j, n);
    }
  }

  /** Every key is the text of an index of the list. */
  lemma {:induction false} IndexKeysOnly(items: seq<Json>, k: string)
    requires k in IndexKeys(items)
    ensures exists j :: 0 <= j < |items| && k == NatToString(j)
    decreases |items|
  {
    var n := |items| - 1;
    if k != NatToString(n) {
      IndexKeysOnly(items[..n], k);
    }
  }

  /** The keys of a PHP list of `n` elements: the decimal texts of `0..n-1`. */
  function IndexKeySet(n: nat): set<string>
  {
    set j | 0 <= j < n :: NatToString(j)
  }

  /** A decoded object whose keys are a list's keys encodes as a list. */
  predicate IsListKeys(keys: set<string>)
  {
    keys == IndexKeySet(|keys|)
  }

  /** The values of a list-keyed array in index order. */
  function InIndexOrder(m: map<string, Json>, n: nat): (r: seq<Json>)
    requires forall j :: 0 <= j < n ==> NatToString(j) in m
    ensures |r| == n && forall j :: 0 <= j < n ==> r[j] == m[NatToString(j)]
  {
    if n == 0 then [] else InIndexOrder(m, n - 1) + [m[NatToString(n - 1)]]
  }

  /** `json_encode(json_decode(v, true))` on a nested value: objects go
      through PHP arrays, and an array keyed `0..n-1` comes back as a list. */
  function Reencode(v: Json): Json
  {
    match v
    case JList(items) => JList(seq(|items|, i requires 0 <= i < |items| => Reencode(items[i])))
    case JObject(fields) =>
      var kept := map k | k in fields :: Reencode(fields[k]);
      if IsListKeys(kept.Keys) then JList(InIndexOrder(kept, |kept|)) else JObject(kept)
    case _ => v
  }

  /** The members of a decoded array, each as PHP writes it back. */
  function ReencodeMembers(fields: map<string, Json>): (r: map<string, Json>)
    ensures r.Keys == fields.Keys
    ensures forall k :: k in fields ==> r[k] == Reencode(fields[k])
  {
    map k | k in fields :: Reencode(fields[k])
  }

  /** No object anywhere in `v` has the keys of a list (the empty object among
      them). */
  predicate NoListLikeObject(v: Json)
  {
    match v
    case JList(items) => forall i :: 0 <= i < |items| ==> NoListLikeObject(items[i])
    case JObject(fields) => !IsListKeys(fields.Keys) && forall k :: k in fields ==> NoListLikeObject(fields[k])
    case _ => true
  }

  /** Re-encoding an object: a list when its keys are a list's keys, an object
      on the same keys otherwise. */
  lemma ReencodeObject(fields: map<string, Json>)
    ensures IsListKeys(fields.Keys) ==> Reencode(JObject(fields)) == JList(InIndexOrder(ReencodeMembers(fields), |fields|))
    ensures !IsListKeys(fields.Keys) ==> Reencode(JObject(fields)) == JObject(ReencodeMembers(fields))
  {
    assert ReencodeMembers(fields) == map k | k in fields :: Reencode(fields[k]);
  }

  /** The empty object comes back as the empty list. */
  lemma EmptyObjectBecomesList()
    ensures Reencode(JObject(map[])) == JList([])
  {
    assert IndexKeySet(0) == {};
  }

  lemma ListKept(items: seq<Json>)
    requires forall i :: 0 <= i < |items| ==> Reencode(items[i]) == items[i]
    ensures Reencode(JList(items)) == JList(items)
  {
  }

  lemma ObjectKept(fields: map<string, Json>)
    requires !IsListKeys(fields.Keys)
    requires forall k :: k in fields ==> Reencode(fields[k]) == fields[k]
    ensures Reencode(JObject(fields)) == JObject(fields)
  {
    ReencodeObject(fields);
    assert ReencodeMembers(fields) == fields;
  }

  /** A value with no list-like object comes back unchanged. */
  lemma {:induction false} NoListLikeObjectKept(v: Json)
    requires NoListLikeObject(v)
    ensures Reencode(v) == v
  {
    match v
    case JList(items) =>
      forall i | 0 <= i < |items| ensures Reencode(items[i]) == items[i] {
        NoListLikeObjectKept(items[i]);
      }
      ListKept(items);
    case JObject(fields) =>
      forall k | k in fields ensures Reencode(fields[k]) == fields[k] {
        NoListLikeObjectKept(fields[k]);
      }
      ObjectKept(fields);
    case _ =>
  }

  lemma ListReencodeIdempotent(items: seq<Json>)
    requires forall i :: 0 <= i < |items| ==> Reencode(Reencode(items[i])) == Reencode(items[i])
    ensures Reencode(Reencode(JList(items))) == Reencode(JList(items))
  {
  }

  lemma ObjectReencodeIdempotent(fields: map<string, Json>)
    requires forall k :: k in fields ==> Reencode(Reencode(fields[k])) == Reencode(fields[k])
    ensures Reencode(Reencode(JObject(fields))) == Reencode(JObject(fields))
  {
    var kept := ReencodeMembers(fields);
    ReencodeObject(fields);
    if IsListKeys(fields.Keys) {
      var once := InIndexOrder(kept, |fields|);
      forall i | 0 <= i < |once| ensures Reencode(once[i]) == once[i] {
        assert NatToString(i) in IndexKeySet(|fields.Keys|);
      }
      ListKept(once);
    } else {
      ObjectKept(kept);
    }
  }

  /** What PHP writes back, it reads and writes back the same way. */
  lemma {:induction false} ReencodeIdempotent(v: Json)
    ensures Reencode(Reencode(v)) == Reencode(v)
  {
    match v
    case JList(items) =>
      forall i | 0 <= i < |items| ensures Reencode(Reencode(items[i])) == Reencode(items[i]) {
        ReencodeIdempotent(items[i]);
      }
      ListReencodeIdempotent(items);
    case JObject(fields) =>
      forall k | k in fields ensures Reencode(Reencode(fields[k])) == Reencode(fields[k]) {
        ReencodeIdempotent(fields[k]);
      }
      ObjectReencodeIdempotent(fields);
    case _ =>
  }

  /** The decoded content as the array PHP writes the key into, or the
      exception it throws for a scalar. */
  function AsArray(content: Json): Result<map<string, Json>>
  {
    match content
    case JObject(fields) => Ok(fields)
    case JList(items) => Ok(IndexKeys(items))
    case JNull => Ok(map[])
    case JBool(b) => if b then Err(ScalarError) else Ok(map[])
    case JInt(_) => Err(ScalarError)
    case JStr(_) => Err(ScalarError)
  }

  /** `handle`, after `$next($request)` has produced `reply`; `user` is
      `$request->user()`. */
  function Handle(reply: Reply, user: Option<User>): (r: Result<Reply>)
    ensures r.Ok? ==> r.value.status == reply.status
    ensures reply.status != 200 || user.None? ==> r == Ok(reply)
    ensures reply.status == 200 && user.Some? ==> (r.Ok? <==> AsArray(reply.content).Ok?)
  {
    if reply.status == 200 && user.Some? then
      match AsArray(reply.content)
      case Err(m) => Err(m)
      case Ok(fields) => Ok(Reply(reply.status, JObject(ReencodeMembers(fields)[RoleKey := JStr(RoleOf(user.value))])))
    else Ok(reply)
  }

  /** On a JSON object the middleware sets `role` to the user's role and
      writes every other member back as PHP re-encodes it. */
  lemma HandleObject(fields: map<string, Json>, u: User)
    ensures var r := Handle(Reply(200, JObject(fields)), Some(u));
      && r.Ok? && r.value.status == 200 && r.value.content.JObject?
      && r.value.content.fields.Keys == fields.Keys + {"role"}
      && r.value.content.fields["role"] == JStr(if "admin" in u.roles then "admin" else "user")
      && forall k :: k in fields && k != "role" ==> r.value.content.fields[k] == Reencode(fields[k])
  {
  }

  /** A nested empty object comes back as an empty list: `{"a":{}}` is
      answered with `{"a":[],"role":…}`. */
  lemma HandleNestedEmptyObject(u: User)
    ensures Handle(Reply(200, JObject(map["a" := JObject(map[])])), Some(u))
         == Ok(Reply(200, JObject(map["a" := JList([]), "role" := JStr(RoleOf(u))])))
  {
    EmptyObjectBecomesList();
    assert ReencodeMembers(map["a" := JObject(map[])]) == map["a" := JList([])];
  }

  /** Content that decodes to `null` (including content that is not JSON)
      becomes the object holding only the role. */
  lemma HandleNull(u: User)
    ensures Handle(Reply(200, JNull), Some(u)) == Ok(Reply(200, JObject(map["role" := JStr(RoleOf(u))])))
  {
  }

  /** A JSON list becomes an object keyed by the list's indices, each holding
      its element as PHP re-encodes it, plus the role. */
  lemma HandleList(items: seq<Json>, u: User)
    ensures var r := Handle(Reply(200, JList(items)), Some(u));
      && r.Ok? && r.value.content.JObject?
      && r.value.content.fields["role"] == JStr(RoleOf(u))
      && (forall j :: 0 <= j < |items| ==>
            NatToString(j) in r.value.content.fields && r.value.content.fields[NatToString(j)] == Reencode(items[j]))
      && (forall k :: k in r.value.content.fields ==>
            k == "role" || exists j :: 0 <= j < |items| && k == NatToString(j))
  {
    var fields := IndexKeys(items);
    forall j | 0 <= j < |items|
      ensures NatToString(j) in fields && fields[NatToString(j)] == items[j] && NatToString(j) != "role"
    {
      IndexKeysHold(items, j);
      assert IsDigit(NatToString(j)[0]);
    }
    forall k | k in fields
      ensures exists j :: 0 <= j < |items| && k == NatToString(j)
    {
      IndexKeysOnly(items, k);
    }
  }

  /** A number, a string or `true` cannot take a key: PHP throws. */
  lemma HandleScalar(content: Json, u: User)
    requires content.JInt? || content.JStr? || content == JBool(true)
    ensures Handle(Reply(200, content), Some(u)).Err?
  {
  }

  /** Running the middleware on its own answer changes nothing more: the role
      it wrote is the role it writes, and what PHP wrote back it writes back
      the same way. */
  lemma {:induction false} HandleIdempotent(reply: Reply, user: Option<User>)
    requires Handle(reply, user).Ok?
    ensures Handle(Handle(reply, user).value, user) == Handle(reply, user)
  {
    var once := Handle(reply, user).value;
    if reply.status == 200 && user.Some? {
      var fields := ReencodeMembers(AsArray(reply.content).value);
      var role := JStr(RoleOf(user.value));
      var written := fields[RoleKey := role];
      assert once.content == JObject(written);
      forall k | k in written ensures Reencode(written[k]) == written[k] {
        if k != RoleKey {
          ReencodeIdempotent(AsArray(reply.content).value[k]);
        }
      }
      assert ReencodeMembers(written) == written;
      assert written[RoleKey := role] == written;
    }
  }
}
