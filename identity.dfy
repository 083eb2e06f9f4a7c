/**
 * The session identifiers of the two kinds of user (`get_id`,
 * models.py:41-42 and 63-64) and `load_user` (app.py:58-70), which reads
 * one back: the prefix picks the table, the text between the first and the
 * second underscore is converted with `int(...)` and looked up.
 */
module Identity {
  import opened Common
  import opened Text

  /** A logged-in user: a row of `admin` or of `clientes`; the two tables number their rows independently. */
  datatype Principal = AdminUser(id: nat) | ClientUser(id: nat)

  /** `get_id()`: the string Flask-Login stores in the session. */
  function GetId(u: Principal): string
  {
    match u
    case AdminUser(id) => "admin_" + NatToString(id)
    case ClientUser(id) => "client_" + NatToString(id)
  }

  datatype LoadResult =
    | Found(user: Principal)
    | NoUser          // unknown prefix, or `query.get` found no row
    | BadUserId       // `int(...)` raised ValueError

  predicate IsPrefix(prefix: string, s: string)
  {
    |prefix| <= |s| && s[..|prefix|] == prefix
  }

  /** After `word_`, splitting on underscores gives `word` and then the parts of the rest. */
  lemma SplitPrefixed(word: string, s: string)
    requires '_' !in word && IsPrefix(word + "_", s)
    ensures Split(s, '_') == [word] + Split(s[|word| + 1..], '_')
  {
    var rest := s[|word| + 1..];
    assert s == word + ("_" + rest);
    SplitAfterWord(word, "_" + rest, '_');
    assert ("_" + rest)[1..] == rest;
    assert word + "" == word;
  }

  /** `int(user_id.split('_')[1])`, for an identifier that starts with `word_`. */
  function NumberAfter(word: string, s: string): Option<int>
    requires '_' !in word && IsPrefix(word + "_", s)
  {
    SplitPrefixed(word, s);
    ParseInt(Split(s, '_')[1])
  }

  /** `Admin.query.get(n)` / `Clientes.query.get(n)` on the converted number, against the ids the table holds. */
  function Resolve(number: Option<int>, ids: set<nat>, admin: bool): LoadResult
  {
    match number
    case None => BadUserId
    case Some(n) =>
      if n >= 0 && n as nat in ids then Found(if admin then AdminUser(n as nat) else ClientUser(n as nat))
      else NoUser
  }

  /** `load_user(user_id)` with the ids present in the two tables. */
  function LoadUser(s: string, adminIds: set<nat>, clientIds: set<nat>): LoadResult
  {
    if IsPrefix("admin_", s) then Resolve(NumberAfter("admin", s), adminIds, true)
    else if IsPrefix("client_", s) then Resolve(NumberAfter("client", s), clientIds, false)
    else NoUser
  }

  /** A string without underscores splits into itself. */
  lemma SplitWhole(t: string)
    requires '_' !in t
    ensures Split(t, '_') == [t]
  {
    SplitJoin([t], '_');
  }

  /** A string of digits holds no underscore. */
  lemma DigitsHaveNoUnderscore(t: string)
    requires AllDigits(t)
    ensures '_' !in t
  {
    forall k | 0 <= k < |t| ensures t[k] != '_' {
      assert IsDigit(t[k]);
    }
  }

  /** The number in a stored administrator identifier is the administrator's id. */
  lemma NumberOfAdminId(id: nat)
    ensures IsPrefix("admin_", GetId(AdminUser(id))) && NumberAfter("admin", GetId(AdminUser(id))) == Some(id)
  {
    var digits := NatToString(id);
    var s := GetId(AdminUser(id));
    DigitsHaveNoUnderscore(digits);
    SplitWhole(digits);
    ParseIntOfNatToString(id);
    assert IsPrefix("admin_", s);
    SplitPrefixed("admin", s);
    assert s[6..] == digits;
  }

  /** The number in a stored client identifier is the client's id, and it is not read as an administrator's. */
  lemma NumberOfClientId(id: nat)
    ensures !IsPrefix("admin_", GetId(ClientUser(id)))
    ensures IsPrefix("client_", GetId(ClientUser(id))) && NumberAfter("client", GetId(ClientUser(id))) == Some(id)
  {
    var digits := NatToString(id);
    var s := GetId(ClientUser(id));
    DigitsHaveNoUnderscore(digits);
    SplitWhole(digits);
    ParseIntOfNatToString(id);
    assert !IsPrefix("admin_", s) by {
      assert s[0] == 'c';
    }
    assert IsPrefix("client_", s);
    SplitPrefixed("client", s);
    assert s[7..] == digits;
  }

  /**
   * Loading what `get_id` stored gives the same user back while the row
   * exists, and no user once it is gone: an administrator is never
   * mistaken for the client with the same number, nor the other way round.
   */
  lemma LoadUserGetId(u: Principal, adminIds: set<nat>, clientIds: set<nat>)
    ensures LoadUser(GetId(u), adminIds, clientIds)
            == if (u.AdminUser? && u.id in adminIds) || (u.ClientUser? && u.id in clientIds) then Found(u) else NoUser
  {
    match u
    case AdminUser(id) => NumberOfAdminId(id);
    case ClientUser(id) => NumberOfClientId(id);
  }

  /** Only the text up to the second underscore is read: anything after it is ignored. */
  lemma LoadUserIgnoresTail(t: string, tail: string, adminIds: set<nat>, clientIds: set<nat>)
    requires '_' !in t
    ensures LoadUser("admin_" + t + "_" + tail, adminIds, clientIds) == LoadUser("admin_" + t, adminIds, clientIds)
  {
    var long := "admin_" + t + "_" + tail;
    var short := "admin_" + t;
    assert IsPrefix("admin_", long) && IsPrefix("admin_", short);
    SplitPrefixed("admin", long);
    SplitPrefixed("admin", short);
    assert long[6..] == t + ("_" + tail);
    assert short[6..] == t;
    SplitAfterWord(t, "_" + tail, '_');
    SplitWhole(t);
    assert t + "" == t;
  }

  /**
   * For `admin_t` with no further underscore, the whole of `t` goes to
   * `int(...)`: a number it refuses (an empty one, say) is an error rather
   * than a missing user.
   */
  lemma AdminNumberIsWholeTail(t: string, adminIds: set<nat>, clientIds: set<nat>)
    requires '_' !in t
    ensures LoadUser("admin_" + t, adminIds, clientIds) == Resolve(ParseInt(t), adminIds, true)
    ensures ParseInt(t).None? ==> LoadUser("admin_" + t, adminIds, clientIds) == BadUserId
  {
    var s := "admin_" + t;
    assert IsPrefix("admin_", s);
    SplitPrefixed("admin", s);
    assert s[6..] == t;
    SplitWhole(t);
  }
}
