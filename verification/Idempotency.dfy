/** The idempotency plugin's two hooks over a shared store, as written, and a request on its own. */
module Idempotency {
  import opened Wrappers
  import Text

  datatype HeaderValue = Single(text: string) | Multi(texts: seq<string>)

  datatype Reply = Reply(status: int, body: string, headers: map<string, HeaderValue>)

  /** What the store holds under a key: the sentinel, a serialised reply, or text that is neither. */
  datatype Entry = Pending | Cached(status: int, body: string, headers: map<string, string>) | Garbage

  datatype Role = NoRole | Viewer | User | OrgAdmin

  datatype MinRole = Unrestricted | Write | Admin

  const REPLAYED_HEADERS: set<string> := {"location", "etag", "content-type", "retry-after"}

  predicate RoleSatisfies(role: Role, minRole: MinRole) {
    match minRole
    case Unrestricted => true
    case Admin => role == OrgAdmin
    case Write => role == OrgAdmin || role == User
  }

  /** The routes' own guards, for an authenticated caller: the status of the denial. */
  datatype Guard = RequireWrite | RequireOrgAdmin

  function Denial(guard: Guard, role: Role): Option<int> {
    match guard
    case RequireWrite => if role != OrgAdmin && role != User then Some(403) else None
    case RequireOrgAdmin => if role != OrgAdmin then Some(403) else None
  }

  /** The guard that a route with this minimum role has; a route without one has no role guard. */
  function GuardOf(minRole: MinRole): Option<Guard> {
    match minRole
    case Unrestricted => None
    case Write => Some(RequireWrite)
    case Admin => Some(RequireOrgAdmin)
  }

  /** The route's own guard lets the role through. */
  predicate Admits(minRole: MinRole, role: Role) {
    GuardOf(minRole).None? || Denial(GuardOf(minRole).value, role) == None
  }

  /** The plugin's role check is the guard of the route it runs ahead of. */
  lemma RoleCheckMirrorsGuard(role: Role, minRole: MinRole)
    ensures RoleSatisfies(role, minRole) <==> Admits(minRole, role)
  {
  }

  function BuildKey(orgId: string, routeKey: string, clientKey: string): string {
    "idem:" + orgId + ":" + routeKey + ":" + clientKey
  }

  /** The routes that opt in. */
  const ROUTE_KEYS: set<string> := {
    "POST:/v1/pledges", "POST:/v1/donations", "POST:/v1/campaigns", "POST:/v1/campaigns/:id/documents"}

  datatype Route = Route(key: string, minRole: MinRole, guard: Guard)

  /** The opted-in routes as they are registered: their key, their minimum role and their guard. */
  const ROUTES: seq<Route> := [
    Route("POST:/v1/pledges", Write, RequireWrite),
    Route("POST:/v1/donations", Write, RequireWrite),
    Route("POST:/v1/campaigns", Write, RequireWrite),
    Route("POST:/v1/campaigns/:id/documents", Admin, RequireOrgAdmin)]

  /** Each opted-in route asks the plugin for the role its guard asks for. */
  lemma RoutesMirrorTheirGuards(route: Route, role: Role)
    requires route in ROUTES
    ensures route.key in ROUTE_KEYS
    ensures RoleSatisfies(role, route.minRole) <==> Denial(route.guard, role) == None
  {
    assert route == ROUTES[0] || route == ROUTES[1] || route == ROUTES[2] || route == ROUTES[3];
  }

  predicate Is2xx(status: int) {
    200 <= status < 300
  }

  function Captured(reply: Reply): Entry {
    Cached(reply.status, reply.body,
           map h | h in REPLAYED_HEADERS && h in reply.headers && reply.headers[h].Single? :: reply.headers[h].text)
  }

  function Replay(e: Entry): Reply
    requires e.Cached?
  {
    Reply(e.status, e.body, map["idempotency-replayed" := Single("true")] + (map h | h in e.headers :: Single(e.headers[h])))
  }

  const CONFLICT := Reply(409, "in progress", map["retry-after" := Single("2")])

  const FORBIDDEN := Reply(403, "Forbidden", map[])

  class Store {
    var entries: map<string, Entry>

    constructor ()
      ensures entries == map[]
    {
      entries := map[];
    }

    method SetIfAbsent(key: string, e: Entry) returns (acquired: bool)
      modifies this
      ensures acquired <==> key !in old(entries)
      ensures entries == if acquired then old(entries)[key := e] else old(entries)
    {
      if key in entries {
        return false;
      }
      entries := entries[key := e];
      return true;
    }

    method Delete(key: string)
      modifies this
      ensures entries == old(entries) - {key}
    {
      entries := entries - {key};
    }

    method Put(key: string, e: Entry)
      modifies this
      ensures entries == old(entries)[key := e]
    {
      entries := entries[key := e];
    }
  }

  class Request {
    const role: Role
    const key: string
    var idempotencyCacheKey: Option<string>

    constructor (role: Role, key: string)
      ensures this.role == role && this.key == key && idempotencyCacheKey == None
    {
      this.role, this.key, idempotencyCacheKey := role, key, None;
    }
  }

  /** None lets the handler run; a reply short-circuits it. */
  method PreHandler(store: Store, request: Request, minRole: MinRole) returns (reply: Option<Reply>)
    modifies store, request
    ensures !Admits(minRole, request.role) ==>
      reply == Some(FORBIDDEN) && request.idempotencyCacheKey == old(request.idempotencyCacheKey)
      && store.entries == old(store.entries)
    ensures Admits(minRole, request.role) ==>
      var key := request.key;
      if key !in old(store.entries) then
        reply == None && store.entries == old(store.entries)[key := Pending] && request.idempotencyCacheKey == Some(key)
      else
        match old(store.entries)[key]
        case Pending =>
          reply == Some(CONFLICT) && store.entries == old(store.entries) && request.idempotencyCacheKey == Some(key)
        case Cached(_, _, _) =>
          reply == Some(Replay(old(store.entries)[key])) && store.entries == old(store.entries)
          && request.idempotencyCacheKey == None
        case Garbage =>
          reply == None && store.entries == old(store.entries) - {key} && request.idempotencyCacheKey == Some(key)
  {
    if !RoleSatisfies(request.role, minRole) {
      return Some(FORBIDDEN);
    }
    request.idempotencyCacheKey := Some(request.key);
    var acquired := store.SetIfAbsent(request.key, Pending);
    if acquired {
      return None;
    }
    var cached := store.entries[request.key];
    if cached == Pending {
      return Some(CONFLICT);
    }
    if cached == Garbage {
      store.Delete(request.key);
      return None;
    }
    request.idempotencyCacheKey := None;
    return Some(Replay(cached));
  }

  method OnSend(store: Store, request: Request, reply: Reply)
    modifies store
    ensures store.entries == Sent(old(store.entries), request.idempotencyCacheKey, reply)
  {
    if request.idempotencyCacheKey == None {
      return;
    }
    var key := request.idempotencyCacheKey.value;
    if reply.status < 200 || reply.status >= 300 {
      store.Delete(key);
      return;
    }
    store.Put(key, Captured(reply));
  }

  function Sent(entries: map<string, Entry>, key: Option<string>, reply: Reply): map<string, Entry> {
    if key == None then entries
    else if Is2xx(reply.status) then entries[key.value := Captured(reply)]
    else entries - {key.value}
  }

  // ----- A request that nothing else overlaps -----

  datatype Served = Served(entries: map<string, Entry>, reply: Reply, handled: bool)

  /** `handlerReply` is what the handler answers if it gets to run. */
  function Serve(entries: map<string, Entry>, key: string, role: Role, minRole: MinRole, handlerReply: Reply): Served {
    if !Admits(minRole, role) then Served(entries, FORBIDDEN, false)
    else if key !in entries || entries[key] == Garbage then Served(Sent(entries, Some(key), handlerReply), handlerReply, true)
    else if entries[key] == Pending then Served(Sent(entries, Some(key), CONFLICT), CONFLICT, false)
    else Served(entries, Replay(entries[key]), false)
  }

  method ServeRequest(store: Store, key: string, role: Role, minRole: MinRole, handlerReply: Reply)
    returns (reply: Reply, handled: bool)
    modifies store
    ensures Served(store.entries, reply, handled) == Serve(old(store.entries), key, role, minRole, handlerReply)
  {
    hide Admits, Captured, Is2xx, Replay;
    var request := new Request(role, key);
    ghost var before := store.entries;
    var early := PreHandler(store, request, minRole);
    handled := early == None;
    reply := if handled then handlerReply else early.value;
    OnSend(store, request, reply);
    assert Sent(before[key := Pending], Some(key), reply) == Sent(before, Some(key), reply);
    assert Sent(before - {key}, Some(key), reply) == Sent(before, Some(key), reply);
  }

  /**
   * A request gets past the plugin, to a replay, a conflict or its handler, exactly if the route's
   * own guard admits the caller; else it gets a 403 and leaves everything as it was.
   */
  lemma GuardDecides(entries: map<string, Entry>, key: string, role: Role, minRole: MinRole, handlerReply: Reply)
    ensures var served := Serve(entries, key, role, minRole, handlerReply);
            if GuardOf(minRole).Some? && Denial(GuardOf(minRole).value, role).Some? then
              !served.handled && served.entries == entries && served.reply.status == 403 && served.reply.headers == map[]
              && Denial(GuardOf(minRole).value, role) == Some(403)
            else if key !in entries || entries[key] == Garbage then
              served.handled && served.reply == handlerReply
            else
              && !served.handled
              && (entries[key] == Pending ==> served.reply.status == 409 && "retry-after" in served.reply.headers
                                              && served.reply.headers["retry-after"] == Single("2"))
              && (entries[key].Cached? ==> served.reply.status == entries[key].status && served.reply.body == entries[key].body
                                           && served.entries == entries)
  {
  }

  /** One request after the other, each with the key, its own caller and its own handler reply. */
  datatype Call = Call(key: string, role: Role, minRole: MinRole, handlerReply: Reply)

  function Before(entries: map<string, Entry>, calls: seq<Call>, i: nat): map<string, Entry>
    requires i <= |calls|
  {
    if i == 0 then entries
    else
      var c := calls[i - 1];
      Serve(Before(entries, calls, i - 1), c.key, c.role, c.minRole, c.handlerReply).entries
  }

  function At(entries: map<string, Entry>, calls: seq<Call>, i: nat): Served
    requires i < |calls|
  {
    var c := calls[i];
    Serve(Before(entries, calls, i), c.key, c.role, c.minRole, c.handlerReply)
  }

  /** Between requests a key is either absent or holds the reply some earlier handler gave. */
  lemma {:induction false} SettledBetweenRequests(calls: seq<Call>, i: nat, key: string)
    requires i <= |calls|
    ensures key in Before(map[], calls, i) ==> Before(map[], calls, i)[key].Cached?
  {
    if i > 0 {
      SettledBetweenRequests(calls, i - 1, key);
      SettledBetweenRequests(calls, i - 1, calls[i - 1].key);
    }
  }

  /** The cached reply stays for good once it is there. */
  lemma {:induction false} CachedStays(calls: seq<Call>, i: nat, j: nat, key: string)
    requires i <= j <= |calls| && key in Before(map[], calls, i)
    ensures key in Before(map[], calls, j) && Before(map[], calls, j)[key] == Before(map[], calls, i)[key]
    decreases j
  {
    SettledBetweenRequests(calls, i, key);
    if i < j {
      CachedStays(calls, i, j - 1, key);
    }
  }

  /** What a client sees again: status, body, and the allow-listed headers that had one value. */
  ghost predicate SameToClient(original: Reply, later: Reply) {
    && later.status == original.status
    && later.body == original.body
    && (forall h | h == "location" || h == "etag" || h == "content-type" || h == "retry-after" ::
          (h in later.headers <==> h in original.headers && original.headers[h].Single?)
          && (h in later.headers ==> later.headers[h] == original.headers[h]))
    && "idempotency-replayed" in later.headers && later.headers["idempotency-replayed"] == Single("true")
    && forall h | h in later.headers && h != "idempotency-replayed" :: h in original.headers
  }

  /**
   * Without overlap and expiry: a handler that answers 2xx is the last one to run for its key, and
   * every later request whose role is allowed gets that reply.
   */
  lemma SuccessIsReplayed(calls: seq<Call>, i: nat, j: nat)
    requires i < j < |calls| && calls[i].key == calls[j].key
    requires At(map[], calls, i).handled && Is2xx(calls[i].handlerReply.status)
    ensures !At(map[], calls, j).handled
    ensures Admits(calls[j].minRole, calls[j].role) ==>
            SameToClient(calls[i].handlerReply, At(map[], calls, j).reply)
  {
    var key := calls[i].key;
    assert Before(map[], calls, i + 1)[key] == Captured(calls[i].handlerReply);
    CachedStays(calls, i + 1, j, key);
  }

  /** Until then every allowed request runs its handler: a failure is never replayed. */
  lemma FailuresAreRetried(calls: seq<Call>, j: nat)
    requires j < |calls| && Admits(calls[j].minRole, calls[j].role)
    requires forall i | 0 <= i < j && calls[i].key == calls[j].key ::
               !(At(map[], calls, i).handled && Is2xx(calls[i].handlerReply.status))
    ensures At(map[], calls, j).handled && At(map[], calls, j).reply == calls[j].handlerReply
  {
    AbsentUntilSuccess(calls, j, calls[j].key);
  }

  lemma {:induction false} AbsentUntilSuccess(calls: seq<Call>, j: nat, key: string)
    requires j <= |calls|
    requires forall i | 0 <= i < j && calls[i].key == key ::
               !(At(map[], calls, i).handled && Is2xx(calls[i].handlerReply.status))
    ensures key !in Before(map[], calls, j)
  {
    if j > 0 {
      AbsentUntilSuccess(calls, j - 1, key);
      SettledBetweenRequests(calls, j - 1, calls[j - 1].key);
      assert At(map[], calls, j - 1).entries == Before(map[], calls, j);
    }
  }

  // ----- Keys -----

  lemma RoutesDiffer(r: string, r': string)
    requires r in ROUTE_KEYS && r' in ROUTE_KEYS && r != r'
    ensures |r| > 9 && |r'| > 9
    ensures r[9] != r'[9] || (|r| >= 18 && |r'| >= 18 && (r + ":")[18] != (r' + ":")[18])
  {
  }

  lemma RouteAgrees(r: string, client: string)
    requires r in ROUTE_KEYS
    ensures |r| > 9 && (r + ":" + client)[9] == r[9]
    ensures |r| >= 18 ==> (r + ":" + client)[18] == (r + ":")[18]
  {
  }

  lemma RouteAndClient(route: string, client: string, route': string, client': string)
    requires route in ROUTE_KEYS && route' in ROUTE_KEYS && route + ":" + client == route' + ":" + client'
    ensures route == route' && client == client'
  {
    var rest, rest' := route + ":" + client, route' + ":" + client';
    RouteAgrees(route, client);
    RouteAgrees(route', client');
    if route != route' {
      RoutesDiffer(route, route');
      assert false;
    }
    assert rest[|route| + 1..] == client && rest'[|route| + 1..] == client';
  }

  /** Keys of the opted-in routes never collide, whatever the client sends. */
  lemma KeysAreDistinct(org: string, route: string, client: string, org': string, route': string, client': string)
    requires ':' !in org && ':' !in org' && route in ROUTE_KEYS && route' in ROUTE_KEYS
    requires BuildKey(org, route, client) == BuildKey(org', route', client')
    ensures org == org' && route == route' && client == client'
  {
    hide BuildKey;
    var rest, rest' := route + ":" + client, route' + ":" + client';
    AfterPrefix(org, route, client);
    AfterPrefix(org', route', client');
    Text.FirstColon(org, org', rest, rest');
    RouteAndClient(route, client, route', client');
  }

  lemma AfterPrefix(org: string, route: string, client: string)
    ensures |BuildKey(org, route, client)| >= 5
    ensures BuildKey(org, route, client)[5..] == org + ":" + (route + ":" + client)
  {
  }
}
