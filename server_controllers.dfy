/** The draw and join handlers of the server (server/controllers/group.go):
    chains of early returns, each writing one status and body into the gin
    context and calling the group service at most once. */
module ServerControllers {
  import opened Wrappers
  import opened ServerGroups
  import opened ServerMiddleware
  import opened Strings

  /** The claims a handler reads after `Auth`: the group the caller belongs
      to and whether they administer it. The group ID is the string the
      group service is keyed by. */
  datatype AuthClaims = AuthClaims(groupID: string, isAdmin: bool)

  /** The user part of a join request. */
  datatype UserRequest = UserRequest(username: string, email: string, passwordVerifier: string,
                                     publicKeySecret: string, privateKeyEncrypted: string)

  datatype JoinGroupRequest = JoinGroupRequest(groupToken: string, user: UserRequest)

  /** The user record a join creates. */
  datatype NewUser = NewUser(username: string, email: string, passwordVerifier: string,
                             publicKeySecret: string, privateKeyEncrypted: string,
                             groupID: string, isAdmin: bool)

  /** What the user service's `CreateUser` answers. */
  datatype CreateUserOutcome = Created | UserAlreadyExists | CreateFailed

  /** The payloads the handlers answer with. */
  datatype Reply = PublicKeysSecret(keys: seq<string>) | JoinedUser(user: NewUser) | NoContent

  // ------------------------------------------------------------ statuses

  /** The status `InitDraw` answers for the claims and the stored groups. */
  function InitDrawStatus(claims: AuthClaims, groups: map<string, Group>,
                          rand: nat -> Option<seq<byte>>): (status: int)
    requires EightBytes(rand)
    ensures status in {200, 403, 404, 409, 500}
    ensures status == 200 <==>
      claims.isAdmin && claims.groupID in groups && groups[claims.groupID].results.None?
      && |groups[claims.groupID].users| >= 3
      && Shuffle(groups[claims.groupID].users, rand, |groups[claims.groupID].users| - 1).Some?
  {
    if !claims.isAdmin then 403
    else if claims.groupID !in groups then 404
    else if groups[claims.groupID].results.Some? then 409
    else
      var users := groups[claims.groupID].users;
      if |users| < 3 || Shuffle(users, rand, |users| - 1).None? then 500 else 200
  }

  /** The status `FinishDraw` answers; `request` is `None` when the body
      does not bind, and `updated` is whether the database accepted the
      group with its results. */
  function FinishDrawStatus(claims: AuthClaims, groups: map<string, Group>,
                            drawSessions: map<string, DrawSession>, request: Option<seq<string>>,
                            parseKey: string -> Option<Jwk>, jweEncrypt: (string, Jwk) -> Option<string>,
                            updated: bool)
    : (status: int)
    ensures status in {200, 400, 403, 404, 409, 500}
    ensures status == 200 <==>
      claims.isAdmin && claims.groupID in groups && groups[claims.groupID].results.None?
      && request.Some? && claims.groupID in drawSessions
      && |request.value| == |drawSessions[claims.groupID].userIDs|
      && EncryptAll(drawSessions[claims.groupID].userIDs, request.value, parseKey, jweEncrypt).Ok?
      && updated
  {
    if !claims.isAdmin then 403
    else if claims.groupID !in groups then 404
    else if groups[claims.groupID].results.Some? then 409
    else if request.None? then 400
    else if claims.groupID !in drawSessions then 500
    else
      var ids := drawSessions[claims.groupID].userIDs;
      if |request.value| != |ids| then 500
      else if EncryptAll(ids, request.value, parseKey, jweEncrypt).Err? || !updated then 500
      else 200
  }

  /** A group whose draw is done answers no administrator's `InitDraw` or
      `FinishDraw` with anything but 409, whatever the request: a draw can
      be neither started nor finished twice. */
  lemma DrawAtMostOnce(groups: map<string, Group>, drawSessions: map<string, DrawSession>, groupID: string,
                       rand: nat -> Option<seq<byte>>, request: Option<seq<string>>,
                       parseKey: string -> Option<Jwk>, jweEncrypt: (string, Jwk) -> Option<string>,
                       updated: bool)
    requires EightBytes(rand)
    requires groupID in groups && groups[groupID].results.Some?
    ensures InitDrawStatus(AuthClaims(groupID, true), groups, rand) == 409
    ensures FinishDrawStatus(AuthClaims(groupID, true), groups, drawSessions, request, parseKey, jweEncrypt, updated) == 409
  {
  }

  // ------------------------------------------------------------ handlers

  /** `InitDraw`: 403 for a non-administrator, 404 for an unknown group,
      409 once results exist, 500 for any service error (too few members,
      a failed random read), else 200 with the shuffled wrapped keys. Only
      the 200 path changes the draw sessions. */
  method InitDraw(c: GinContext<Reply>, service: GroupService, claims: AuthClaims,
                  rand: nat -> Option<seq<byte>>)
    requires EightBytes(rand)
    modifies c, service
    ensures c.status == Some(InitDrawStatus(claims, old(service.groups), rand))
    ensures c.aborted == old(c.aborted) && c.claims == old(c.claims)
    ensures service.groups == old(service.groups)
    ensures c.status != Some(200) ==> service.drawSessions == old(service.drawSessions)
    ensures c.status == Some(200) ==>
      var users := old(service.groups)[claims.groupID].users;
      var shuffled := Shuffle(users, rand, |users| - 1).value;
      c.body == Some(Payload(PublicKeysSecret(PublicKeySecrets(shuffled))))
      && service.drawSessions == old(service.drawSessions)[claims.groupID := DrawSession(Ids(shuffled))]
  {
    var groupID := claims.groupID;
    if !claims.isAdmin {
      c.status, c.body := Some(403), Some(ErrorMessage("Forbidden"));
      return;
    }
    if groupID !in service.groups {
      c.status, c.body := Some(404), Some(ErrorMessage("Group not found"));
      return;
    }
    var group := service.groups[groupID];
    if group.results.Some? {
      c.status, c.body := Some(409), Some(ErrorMessage("Draw already done"));
      return;
    }
    var publicKeys := service.InitDraw(groupID, rand);
    if publicKeys.Err? {
      c.status, c.body := Some(500), Some(ErrorText);
      return;
    }
    c.status, c.body := Some(200), Some(Payload(PublicKeysSecret(publicKeys.value)));
  }

  /** `FinishDraw`: the same 403/404/409 guards, then 400 when the body does
      not bind — all four before the draw session is touched — then 500 for
      any service error and a bare 200 once the results are stored. */
  method FinishDraw(c: GinContext<Reply>, service: GroupService, claims: AuthClaims,
                    request: Option<seq<string>>,
                    parseKey: string -> Option<Jwk>, jweEncrypt: (string, Jwk) -> Option<string>,
                    updated: bool)
    modifies c, service
    ensures c.status == Some(FinishDrawStatus(claims, old(service.groups), old(service.drawSessions),
                                              request, parseKey, jweEncrypt, updated))
    ensures c.aborted == old(c.aborted) && c.claims == old(c.claims)
    ensures c.status in {Some(400), Some(403), Some(404), Some(409)} ==>
      service.groups == old(service.groups) && service.drawSessions == old(service.drawSessions)
    ensures c.status == Some(500) ==>
      service.groups == old(service.groups)
      && service.drawSessions == old(service.drawSessions) - {claims.groupID}
    ensures c.status == Some(200) ==>
      var ids := old(service.drawSessions)[claims.groupID].userIDs;
      var results := EncryptAll(ids, request.value, parseKey, jweEncrypt).value;
      c.body == Some(Payload(NoContent))
      && service.groups == old(service.groups)[claims.groupID := old(service.groups)[claims.groupID].(results := Some(results))]
      && service.drawSessions == old(service.drawSessions) - {claims.groupID}
  {
    var groupID := claims.groupID;
    if !claims.isAdmin {
      c.status, c.body := Some(403), Some(ErrorMessage("Forbidden"));
      return;
    }
    if groupID !in service.groups {
      c.status, c.body := Some(404), Some(ErrorMessage("Group not found"));
      return;
    }
    var group := service.groups[groupID];
    if group.results.Some? {
      c.status, c.body := Some(409), Some(ErrorMessage("Draw already done"));
      return;
    }
    if request.None? {
      c.status, c.body := Some(400), Some(ErrorText);
      return;
    }
    var results := service.FinishDraw(groupID, request.value, parseKey, jweEncrypt, updated);
    if results.Err? {
      c.status, c.body := Some(500), Some(ErrorText);
      return;
    }
    c.status, c.body := Some(200), Some(Payload(NoContent));
  }

  /** The status `JoinGroup` answers; `request` is `None` when the body does
      not bind, and `verifyGroupJWT` gives the group of a valid group
      token. */
  function JoinGroupStatus(request: Option<JoinGroupRequest>, verifyGroupJWT: string -> Option<string>,
                           groups: map<string, Group>, created: CreateUserOutcome): (status: int)
    ensures status in {201, 400, 401, 404, 409, 500}
    ensures status == 201 <==>
      request.Some? && verifyGroupJWT(request.value.groupToken).Some?
      && verifyGroupJWT(request.value.groupToken).value in groups && created == Created
  {
    if request.None? then 400
    else
      match verifyGroupJWT(request.value.groupToken)
      case None => 401
      case Some(groupID) =>
        if groupID !in groups then 404
        else
          match created
          case UserAlreadyExists => 409
          case CreateFailed => 500
          case Created => 201
  }

  /** `JoinGroup`: 400 for a body that does not bind, 401 for a group token
      that does not verify, 404 for an unknown group, 409 when the user
      already exists, 500 for any other creation error, else 201 with the
      new user, who joins the token's group and is never an
      administrator. */
  method JoinGroup(c: GinContext<Reply>, service: GroupService, request: Option<JoinGroupRequest>,
                   verifyGroupJWT: string -> Option<string>, created: CreateUserOutcome)
    modifies c
    ensures c.status == Some(JoinGroupStatus(request, verifyGroupJWT, service.groups, created))
    ensures c.aborted == old(c.aborted) && c.claims == old(c.claims)
    ensures c.status == Some(201) ==>
      var u := request.value.user;
      c.body == Some(Payload(JoinedUser(NewUser(u.username, u.email, u.passwordVerifier, u.publicKeySecret,
                                                u.privateKeyEncrypted, verifyGroupJWT(request.value.groupToken).value,
                                                false))))
  {
    if request.None? {
      c.status, c.body := Some(400), Some(ErrorText);
      return;
    }
    var req := request.value;
    var verified := verifyGroupJWT(req.groupToken);
    if verified.None? {
      c.status, c.body := Some(401), Some(ErrorMessage("Unauthorized"));
      return;
    }
    var groupID := verified.value;
    if groupID !in service.groups {
      c.status, c.body := Some(404), Some(ErrorMessage("Group not found"));
      return;
    }
    var user := NewUser(req.user.username, req.user.email, req.user.passwordVerifier,
                        req.user.publicKeySecret, req.user.privateKeyEncrypted, groupID, false);
    if created == UserAlreadyExists {
      c.status, c.body := Some(409), Some(ErrorMessage("User already exists"));
      return;
    }
    if created == CreateFailed {
      c.status, c.body := Some(500), Some(ErrorText);
      return;
    }
    c.status, c.body := Some(201), Some(Payload(JoinedUser(user)));
  }
}
