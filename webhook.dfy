/** The decision logic of the Keycloak event listener that forwards events
    to the X3 services webhook: which events are forwarded, how user events
    are labelled, how a delivery is retried, and which headers a request
    carries. */
module Webhook {
  import opened Wrappers

  /** The user event types the listener tells apart; `OtherEvent` stands
      for all the other types of Keycloak's `EventType` together. */
  datatype EventType =
    | Login | Logout | LoginError | Register | UpdateProfile
    | UpdateCredential | RemoveCredential | UpdatePassword | ResetPassword
    | OtherEvent

  /** The admin resource types the listener tells apart; `OtherResource`
      stands for all the other types of Keycloak's `ResourceType` together. */
  datatype ResourceType = User | Group | GroupMembership | RealmRoleMapping | OtherResource

  /** The listener's configuration; `None` stands for Java's `null`. */
  datatype WebhookConfig = WebhookConfig(url: Option<string>, secret: Option<string>, retryCount: int, sendAllEvents: bool)

  /** Resource types relevant to X3. */
  const X3ResourceTypes: set<ResourceType> := {User, Group, GroupMembership, RealmRoleMapping}

  /** User events relevant to X3: the credential changes. */
  const X3UserEvents: set<EventType> := {UpdateCredential, RemoveCredential, UpdatePassword, ResetPassword}

  /** The gate both `onEvent` overloads open with: a URL that is neither
      null nor empty. */
  predicate UrlConfigured(c: WebhookConfig) {
    c.url.Some? && c.url.value != []
  }

  /** `onEvent(Event)` goes on to send. */
  predicate ForwardsUserEvent(c: WebhookConfig, e: EventType) {
    UrlConfigured(c) && (c.sendAllEvents || e in X3UserEvents)
  }

  /** `onEvent(AdminEvent, boolean)` goes on to send. */
  predicate ForwardsAdminEvent(c: WebhookConfig, r: ResourceType) {
    UrlConfigured(c) && (c.sendAllEvents || r in X3ResourceTypes)
  }

  // ---------------------------------------------------------------------
  // Labels of user events
  // ---------------------------------------------------------------------

  /** `mapEventTypeToResourceType`. */
  function ResourceTypeOf(e: EventType): (r: string)
    ensures r == "CREDENTIAL" <==> e in X3UserEvents
    ensures r == "USER_SESSION" <==> e in {Login, Logout, LoginError}
    ensures r == "USER" <==> !(e in X3UserEvents || e in {Login, Logout, LoginError})
  {
    match e
    case UpdateCredential | RemoveCredential | UpdatePassword | ResetPassword => "CREDENTIAL"
    case Login | Logout | LoginError => "USER_SESSION"
    case Register | UpdateProfile => "USER"
    case _ => "USER"
  }

  /** `mapEventTypeToOperationType`. */
  function OperationTypeOf(e: EventType): (r: string)
    ensures r == "DELETE" <==> e == RemoveCredential
    ensures r == "CREATE" <==> e == Register
    ensures r == "UPDATE" <==> e in {UpdateCredential, UpdatePassword, ResetPassword, UpdateProfile}
    ensures r == "ACTION" <==> !(e in {RemoveCredential, Register, UpdateCredential, UpdatePassword, ResetPassword, UpdateProfile})
  {
    match e
    case UpdateCredential | UpdatePassword | ResetPassword | UpdateProfile => "UPDATE"
    case RemoveCredential => "DELETE"
    case Register => "CREATE"
    case Login | Logout | LoginError => "ACTION"
    case _ => "ACTION"
  }

  /** Without a URL nothing is forwarded. */
  lemma UnconfiguredForwardsNothing(c: WebhookConfig, e: EventType, r: ResourceType)
    requires !UrlConfigured(c)
    ensures !ForwardsUserEvent(c, e) && !ForwardsAdminEvent(c, r)
  {
  }

  /** With `sendAllEvents` every event passes the filter. */
  lemma SendAllForwardsEverything(c: WebhookConfig, e: EventType, r: ResourceType)
    requires UrlConfigured(c) && c.sendAllEvents
    ensures ForwardsUserEvent(c, e) && ForwardsAdminEvent(c, r)
  {
  }

  /** Under the default filter, a forwarded user event is a credential
      change: it is labelled CREDENTIAL, and UPDATE or DELETE. */
  lemma DefaultFilterForwardsCredentialChanges(c: WebhookConfig, e: EventType)
    requires !c.sendAllEvents
    ensures ForwardsUserEvent(c, e) <==> UrlConfigured(c) && ResourceTypeOf(e) == "CREDENTIAL"
    ensures ForwardsUserEvent(c, e) ==> OperationTypeOf(e) == "UPDATE" || OperationTypeOf(e) == "DELETE"
  {
  }

  /** Under the default filter, an admin event is sent exactly when its
      resource is one of the four types X3 tracks. */
  lemma DefaultFilterForwardsX3Resources(c: WebhookConfig, r: ResourceType)
    requires !c.sendAllEvents
    ensures ForwardsAdminEvent(c, r) <==> UrlConfigured(c) && !r.OtherResource?
  {
  }

  // ---------------------------------------------------------------------
  // One delivery attempt
  // ---------------------------------------------------------------------

  /** What `httpClient.send` produced: a response with its status code, or
      an exception (bad URL, connection failure, time-out). */
  datatype Response = Status(code: int) | Failed

  /** `sendWebhook` returns normally: a response below 400. */
  predicate Delivered(r: Response) {
    r.Status? && r.code < 400
  }

  datatype Header = Header(name: string, value: string)

  /** A secret that is neither null nor empty. */
  predicate SecretConfigured(c: WebhookConfig) {
    c.secret.Some? && c.secret.value != []
  }

  /** The headers of the request `sendWebhook` builds. */
  function RequestHeaders(c: WebhookConfig): (hs: seq<Header>)
    ensures |hs| >= 1 && hs[0] == Header("Content-Type", "application/json")
    ensures (exists i :: 0 <= i < |hs| && hs[i].name == "X-Webhook-Secret") <==> SecretConfigured(c)
    ensures forall i :: 0 <= i < |hs| && hs[i].name == "X-Webhook-Secret" ==> hs[i].value == c.secret.value
  {
    var hs := [Header("Content-Type", "application/json")]
      + (if SecretConfigured(c) then [Header("X-Webhook-Secret", c.secret.value)] else []);
    assert "Content-Type"[0] != "X-Webhook-Secret"[0];
    assert SecretConfigured(c) ==> hs[1].name == "X-Webhook-Secret";
    hs
  }

  // ---------------------------------------------------------------------
  // The retry schedule
  // ---------------------------------------------------------------------

  function Min(a: int, b: int): int {
    if a < b then a else b
  }

  function Pow2(k: nat): nat {
    if k == 0 then 1 else 2 * Pow2(k - 1)
  }

  /** The delay before the retry that follows failed attempt `k`: one
      second, doubled after each wait and capped at 30 seconds. */
  function Delay(k: nat): nat {
    if k == 0 then 1000 else Min(Delay(k - 1) * 2, 30000)
  }

  /** The delay after failed attempt `k` is `min(1000 * 2^k, 30000)`. */
  lemma {:induction false} DelayClosedForm(k: nat)
    ensures Delay(k) == Min(1000 * Pow2(k), 30000)
  {
    if k > 0 {
      DelayClosedForm(k - 1);
    }
  }

  /** Delays never decrease and never exceed 30 seconds. */
  lemma DelayBounds(j: nat, k: nat)
    requires j <= k
    ensures 1000 <= Delay(j) <= Delay(k) <= 30000
  {
    DelayClosedForm(j);
    DelayClosedForm(k);
    Pow2Monotone(j, k);
  }

  lemma {:induction false} Pow2Monotone(j: nat, k: nat)
    requires j <= k
    ensures 1 <= Pow2(j) <= Pow2(k)
    decreases k
  {
    if j < k {
      Pow2Monotone(j, k - 1);
    } else if k > 0 {
      Pow2Monotone(k - 1, k - 1);
    }
  }

  /** How many attempts `maxRetries` allows: `attempt` runs from 0 to
      `maxRetries`, so none when it is negative. */
  function Budget(maxRetries: int): nat {
    if maxRetries < 0 then 0 else maxRetries + 1
  }

  /** The waits after the first `n` failed attempts. */
  function Waits(n: nat): (w: seq<nat>)
    ensures |w| == n && forall k :: 0 <= k < n ==> w[k] == Delay(k)
  {
    if n == 0 then [] else Waits(n - 1) + [Delay(n - 1)]
  }

  /** `sendWithRetry`: `respond(k)` is what attempt `k` produced. Returns how
      many attempts were made, the waits between them and whether the last
      one delivered. */
  method SendWithRetry(maxRetries: int, respond: nat -> Response) returns (attempts: nat, waits: seq<nat>, delivered: bool)
    ensures attempts <= Budget(maxRetries)
    ensures delivered <==> exists k :: 0 <= k < Budget(maxRetries) && Delivered(respond(k))
    ensures delivered ==> 0 < attempts && Delivered(respond(attempts - 1))
    ensures forall k :: 0 <= k < attempts - 1 ==> !Delivered(respond(k))
    ensures !delivered ==> attempts == Budget(maxRetries) && forall k :: 0 <= k < attempts ==> !Delivered(respond(k))
    ensures |waits| == if attempts == 0 then 0 else attempts - 1
    ensures forall k :: 0 <= k < |waits| ==> waits[k] == Delay(k)
  {
    var delay := 1000;
    var attempt: nat := 0;
    attempts, waits, delivered := 0, [], false;
    while attempt <= maxRetries
      invariant attempt <= Budget(maxRetries) && attempts == attempt && !delivered
      invariant attempt == 0 || attempt <= maxRetries
      invariant forall k :: 0 <= k < attempt ==> !Delivered(respond(k))
      invariant delay == Delay(attempt)
      invariant waits == Waits(attempt)
      decreases maxRetries - attempt
    {
      attempts := attempts + 1;
      if Delivered(respond(attempt)) {
        delivered := true;
        return;
      }
      if attempt == maxRetries {
        return;
      }
      waits := waits + [delay];
      delay := Min(delay * 2, 30000);
      attempt := attempt + 1;
    }
  }
}
