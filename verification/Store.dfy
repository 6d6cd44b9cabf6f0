/** The rows the token endpoint reads and writes, and the storage operations on them
    (models.py, storage/sql.py; storage/mongo.py gives the same operations). */
module Store {
  import opened Prelude
  import opened Limits

  datatype GrantType =
    AuthorizationCodeGrant | RefreshTokenGrant | DeviceCodeGrant | TokenExchangeGrant
    | ClientCredentialsGrant | JwtBearerGrant

  datatype Client = Client(id: string, isPublic: bool, scope: string, grants: set<GrantType>)

  /** A token family.  Families are random ids; here a fresh one is named after the row it is created for. */
  datatype Family = OfCode(code: nat) | OfRow(row: nat)

  /** The `cnf` confirmation claim: a DPoP key thumbprint or a certificate thumbprint. */
  datatype Confirmation = Jkt(thumbprint: string) | Certificate(thumbprint: string)

  /** The `aud` claim as serialised: one audience is a bare string, anything else a list. */
  datatype Audience = Single(name: string) | Listed(names: seq<string>)

  /** `details` stands for the validated authorization details, named by the text they were parsed from. */
  datatype Claims = Claims(subject: string, client: string, scope: string, aud: Audience,
                           cnf: Option<Confirmation>, details: Option<string>, act: Option<Json>)

  datatype TokenType = Bearer | Dpop

  /** Token strings.  `n` is the random part that makes each of them unique; a JWT also carries its claims. */
  datatype TokenValue = Opaque(n: nat) | Jwt(n: nat, claims: Claims) | RefreshValue(n: nat)

  datatype CodeRow = CodeRow(client: string, user: string, redirectUri: string, scope: string, expiresAt: int,
                             used: bool, challenge: Option<string>, resource: Option<string>,
                             details: Option<string>, family: Option<Family>, jkt: Option<string>)

  datatype DeviceRow = DeviceRow(userCode: string, client: string, scope: string, expiresAt: int,
                                 approved: bool, denied: bool, used: bool, user: Option<string>)

  datatype TokenRow = TokenRow(id: nat, access: TokenValue, refresh: Option<TokenValue>, tokenType: TokenType,
                               expiresIn: int, scope: string, client: string, user: Option<string>,
                               createdAt: int, expiresAt: int, revoked: bool, family: Option<Family>)

  /** What a token was derived from. */
  datatype Origin =
    | FromCode(code: nat)
    | FromDevice(device: nat)
    | Refreshed(parent: nat)
    | Exchanged(parent: nat)
    | Direct

  /** The record of one issuance, kept by the model beside the row and never changed afterwards. */
  datatype Issue = Issue(origin: Origin, client: Client, user: Option<string>, scope: string,
                         access: TokenValue, proof: Option<string>)

  /** The tables.  Rows are numbered by the order in which they were saved; a code's or device code's value is
      its row number.  `issued` is history: one record per token row. */
  datatype Store = Store(codes: seq<CodeRow>, devices: seq<DeviceRow>, tokens: seq<TokenRow>, issued: seq<Issue>)

  const EMPTY := Store([], [], [], [])

  // ---- Reads ----

  function GetCode(st: Store, code: nat): Option<CodeRow> {
    if code < |st.codes| then Some(st.codes[code]) else None
  }

  function GetDevice(st: Store, device: nat): Option<DeviceRow> {
    if device < |st.devices| then Some(st.devices[device]) else None
  }

  function GetDeviceByUserCode(ds: seq<DeviceRow>, userCode: string): (r: Option<DeviceRow>)
    ensures r.None? <==> forall i :: 0 <= i < |ds| ==> ds[i].userCode != userCode
    ensures r.Some? ==> r.value in ds && r.value.userCode == userCode
  {
    if ds == [] then None
    else if ds[0].userCode == userCode then Some(ds[0])
    else GetDeviceByUserCode(ds[1..], userCode)
  }

  /** `SELECT … WHERE access_token = :t`, first match. */
  function GetByAccess(ts: seq<TokenRow>, t: TokenValue): (r: Option<TokenRow>)
    ensures r.Some? ==> r.value in ts && r.value.access == t
    ensures r.None? <==> forall i :: 0 <= i < |ts| ==> ts[i].access != t
  {
    if ts == [] then None else if ts[0].access == t then Some(ts[0]) else GetByAccess(ts[1..], t)
  }

  /** `SELECT … WHERE refresh_token = :t`, first match. */
  function GetByRefresh(ts: seq<TokenRow>, t: TokenValue): (r: Option<TokenRow>)
    ensures r.Some? ==> r.value in ts && r.value.refresh == Some(t)
    ensures r.None? <==> forall i :: 0 <= i < |ts| ==> ts[i].refresh != Some(t)
  {
    if ts == [] then None else if ts[0].refresh == Some(t) then Some(ts[0]) else GetByRefresh(ts[1..], t)
  }

  // ---- Writes ----

  /** `UPDATE tokens SET revoked = true WHERE …` */
  function RevokeWhere(ts: seq<TokenRow>, matches: TokenRow -> bool): (r: seq<TokenRow>)
    ensures |r| == |ts|
    ensures forall i :: 0 <= i < |ts| ==>
              r[i] == if matches(ts[i]) then ts[i].(revoked := true) else ts[i]
  {
    seq(|ts|, i requires 0 <= i < |ts| => if matches(ts[i]) then ts[i].(revoked := true) else ts[i])
  }

  function RevokeToken(st: Store, t: TokenValue): Store {
    st.(tokens := RevokeWhere(st.tokens, (row: TokenRow) => row.access == t || row.refresh == Some(t)))
  }

  function RevokeFamily(st: Store, f: Family): Store {
    st.(tokens := RevokeWhere(st.tokens, (row: TokenRow) => row.family == Some(f)))
  }

  function RevokeByUser(st: Store, user: string): Store {
    st.(tokens := RevokeWhere(st.tokens, (row: TokenRow) => row.user == Some(user) && !row.revoked))
  }

  function RevokeByClient(st: Store, client: string): Store {
    st.(tokens := RevokeWhere(st.tokens, (row: TokenRow) => row.client == client && !row.revoked))
  }

  /** Deleting a user revokes the user's tokens and unlinks them. */
  function DeleteUser(st: Store, user: string): (r: Store)
    ensures r == st.(tokens := r.tokens) && |r.tokens| == |st.tokens|
    ensures forall i :: 0 <= i < |st.tokens| ==>
              r.tokens[i] == if st.tokens[i].user == Some(user) then st.tokens[i].(revoked := true, user := None)
                             else st.tokens[i]
  {
    st.(tokens := seq(|st.tokens|, i requires 0 <= i < |st.tokens| =>
      if st.tokens[i].user == Some(user) then st.tokens[i].(revoked := true, user := None) else st.tokens[i]))
  }

  /** `UPDATE authorization_codes SET used = true WHERE code = :c AND used = false`: new table and row count. */
  function MarkCodeUsed(st: Store, code: nat): (r: (Store, nat))
    ensures r.1 == 1 <==> code < |st.codes| && !st.codes[code].used
    ensures r.1 == 0 ==> r.0 == st
    ensures r.1 <= 1
  {
    if code < |st.codes| && !st.codes[code].used then
      (st.(codes := st.codes[code := st.codes[code].(used := true)]), 1)
    else (st, 0)
  }

  function MarkDeviceUsed(st: Store, device: nat): (r: (Store, nat))
    ensures r.1 == 1 <==> device < |st.devices| && !st.devices[device].used
    ensures r.1 == 0 ==> r.0 == st
    ensures r.1 <= 1
  {
    if device < |st.devices| && !st.devices[device].used then
      (st.(devices := st.devices[device := st.devices[device].(used := true)]), 1)
    else (st, 0)
  }

  function UpdateDevices(ds: seq<DeviceRow>, userCode: string, update: DeviceRow -> DeviceRow): (r: seq<DeviceRow>)
    ensures |r| == |ds|
    ensures forall i :: 0 <= i < |ds| ==> r[i] == if ds[i].userCode == userCode then update(ds[i]) else ds[i]
  {
    seq(|ds|, i requires 0 <= i < |ds| => if ds[i].userCode == userCode then update(ds[i]) else ds[i])
  }

  function ApproveDevice(st: Store, userCode: string, user: string): Store {
    st.(devices := UpdateDevices(st.devices, userCode,
                                 (d: DeviceRow) => d.(approved := true, denied := false, user := Some(user))))
  }

  function DenyDevice(st: Store, userCode: string): Store {
    st.(devices := UpdateDevices(st.devices, userCode, (d: DeviceRow) => d.(denied := true, approved := false)))
  }

  // ---- What the statements promise ----

  /** `i` is the first position at which `matches` holds. */
  ghost predicate FirstAt<T(!new)>(rows: seq<T>, matches: T -> bool, i: nat) {
    i < |rows| && matches(rows[i]) && forall j :: 0 <= j < i ==> !matches(rows[j])
  }

  lemma {:induction false} AccessLookupIsFirst(ts: seq<TokenRow>, t: TokenValue, i: nat)
    requires FirstAt(ts, (row: TokenRow) => row.access == t, i)
    ensures GetByAccess(ts, t) == Some(ts[i])
  {
    if i > 0 {
      assert ts[0].access != t;
      assert forall j :: 0 <= j < i - 1 ==> ts[1..][j] == ts[j + 1];
      AccessLookupIsFirst(ts[1..], t, i - 1);
    }
  }

  lemma {:induction false} RefreshLookupIsFirst(ts: seq<TokenRow>, t: TokenValue, i: nat)
    requires FirstAt(ts, (row: TokenRow) => row.refresh == Some(t), i)
    ensures GetByRefresh(ts, t) == Some(ts[i])
  {
    if i > 0 {
      assert ts[0].refresh != Some(t);
      assert forall j :: 0 <= j < i - 1 ==> ts[1..][j] == ts[j + 1];
      RefreshLookupIsFirst(ts[1..], t, i - 1);
    }
  }

  lemma {:induction false} UserCodeLookupIsFirst(ds: seq<DeviceRow>, userCode: string, i: nat)
    requires FirstAt(ds, (row: DeviceRow) => row.userCode == userCode, i)
    ensures GetDeviceByUserCode(ds, userCode) == Some(ds[i])
  {
    if i > 0 {
      assert ds[0].userCode != userCode;
      assert forall j :: 0 <= j < i - 1 ==> ds[1..][j] == ds[j + 1];
      UserCodeLookupIsFirst(ds[1..], userCode, i - 1);
    }
  }

  /** A claim succeeds exactly on an existing unused code, spends that code and nothing else, and whatever its answer no
      later claim of the same code succeeds. */
  lemma CodeClaimedOnce(st: Store, code: nat)
    ensures var (st', claimed) := MarkCodeUsed(st, code);
            && (claimed == 1 <==> code < |st.codes| && !st.codes[code].used)
            && st' == st.(codes := st'.codes) && |st'.codes| == |st.codes|
            && (forall c :: 0 <= c < |st.codes| ==>
                  st'.codes[c] == st.codes[c].(used := st.codes[c].used || c == code))
            && MarkCodeUsed(st', code) == (st', 0)
  {
  }

  /** The same for device codes. */
  lemma DeviceClaimedOnce(st: Store, device: nat)
    ensures var (st', claimed) := MarkDeviceUsed(st, device);
            && (claimed == 1 <==> device < |st.devices| && !st.devices[device].used)
            && st' == st.(devices := st'.devices) && |st'.devices| == |st.devices|
            && (forall d :: 0 <= d < |st.devices| ==>
                  st'.devices[d] == st.devices[d].(used := st.devices[d].used || d == device))
            && MarkDeviceUsed(st', device) == (st', 0)
  {
  }
}
