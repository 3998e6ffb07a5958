/**
 The published routes (the tables at the end of app/token_payments/api/http.py), in order, and the proof
 that no two of them accept the same request.
 */
module RouteManifest {
  import opened HttpRouting
  import opened Wrappers

  /** A segment of a published path. */
  type Word = s: string | s != "" && '/' !in s witness "a"

  /** A published route, its path as segments. */
  datatype Spec = Spec(verb: string, segments: seq<Word>, operation: string)

  // The table for `/auth` in three parts.

  function LoginRoutes(): seq<Spec> {
    [
      Spec("POST", ["auth", "challenges"], "requestLoginChallenge"),
      Spec("POST", ["auth", "sessions"], "loginWithMetaMask"),
      Spec("POST", ["auth", "oauth", "{provider}", "authorize"], "requestOAuthAuthorization"),
      Spec("POST", ["auth", "oauth", "{provider}", "sessions"], "completeOAuthSession"),
      Spec("POST", ["auth", "oauth", "{provider}", "links"], "linkOAuthIdentity"),
      Spec("GET", ["auth", "oauth", "identities"], "listOAuthIdentities"),
      Spec("DELETE", ["auth", "oauth", "identities", "{oauthIdentityId}"], "revokeOAuthIdentity")
    ]
  }

  function WalletRoutes(): seq<Spec> {
    [
      Spec("POST", ["auth", "wallets", "challenges"], "requestWalletLinkChallenge"),
      Spec("POST", ["auth", "wallets"], "linkWallet"),
      Spec("GET", ["auth", "wallets"], "listWallets"),
      Spec("PATCH", ["auth", "wallets", "{walletId}", "primary"], "setPrimaryWallet"),
      Spec("DELETE", ["auth", "wallets", "{walletId}"], "revokeWallet")
    ]
  }

  function SessionRoutes(): seq<Spec> {
    [
      Spec("POST", ["auth", "sessions", "refresh"], "refreshSession"),
      Spec("POST", ["auth", "sessions", "switch"], "switchSession"),
      Spec("DELETE", ["auth", "sessions"], "logout"),
      Spec("GET", ["auth", "me"], "getCurrentUser"),
      Spec("GET", ["auth", "me", "profile"], "getCurrentUserProfile"),
      Spec("PATCH", ["auth", "me", "profile"], "updateCurrentUserProfile")
    ]
  }

  function OrderRoutes(): seq<Spec> {
    [
      Spec("POST", ["orders"], "createOrder")
    ]
  }

  function CheckoutRoutes(): seq<Spec> {
    [
      Spec("GET", ["checkouts", "tracking", "{trackingId}"], "getCheckoutTrackingByTrackingId"),
      Spec("GET", ["checkouts", "orders", "{orderId}"], "getCheckoutTrackingByOrderId")
    ]
  }

  function PaymentRoutes(): seq<Spec> {
    [
      Spec("GET", ["payments"], "listUserPayments"),
      Spec("POST", ["payments", "transaction-hashes"], "submitTransactionHash"),
      Spec("POST", ["payments", "cancellations"], "cancelPayment")
    ]
  }

  function StoreProfileRoutes(): seq<Spec> {
    [
      Spec("GET", ["stores"], "listPublicStores"),
      Spec("GET", ["products"], "listAllPublicProducts"),
      Spec("GET", ["stores", "{publicStoreId}"], "getStoreProfile"),
      Spec("GET", ["stores", "{publicStoreId}", "products"], "listPublicProducts"),
      Spec("GET", ["stores", "{publicStoreId}", "products", "{publicProductId}"], "getPublicProduct"),
      Spec("GET", ["product-assets", "{publicStoreId}", "{assetFile}"], "getProductAsset"),
      Spec("GET", ["merchant", "stores"], "listMerchantStores"),
      Spec("PATCH", ["merchant", "stores", "{publicStoreId}", "profile"], "updateStoreProfile")
    ]
  }

  function AdminStoreCatalogRoutes(): seq<Spec> {
    [
      Spec("POST", ["admin", "store-users"], "createOrReuseStoreUser"),
      Spec("POST", ["admin", "stores"], "createStore"),
      Spec("POST", ["admin", "stores", "{storeId}", "memberships"], "grantStoreMembership")
    ]
  }

  function StoreOwnerCatalogRoutes(): seq<Spec> {
    [
      Spec("GET", ["merchant", "stores", "{publicStoreId}", "products"], "listMerchantProducts"),
      Spec("GET", ["merchant", "stores", "{publicStoreId}", "products", "{publicProductId}"], "getMerchantProduct"),
      Spec("POST", ["merchant", "stores", "{publicStoreId}", "assets"], "uploadMerchantProductAsset"),
      Spec("POST", ["merchant", "stores", "{publicStoreId}", "products"], "registerStoreProduct"),
      Spec("PATCH", ["merchant", "stores", "{publicStoreId}", "products", "{publicProductId}"], "updateStoreProduct")
    ]
  }

  // The table of the inventory in two parts.

  function StockRoute(action: Word, operation: string): Spec {
    Spec("POST", ["store-owner", "stores", "{storeId}", "inventory", "{productId}", "variants", "{publicVariantId}",
      action], operation)
  }

  function InventoryRoutes(): seq<Spec> {
    [Spec("GET", ["store-owner", "inventory"], "listStoreOwnerInventory")]
  }

  function StockRoutes(): seq<Spec> {
    [
      StockRoute("intake", "increaseStoreOwnerInventoryStock"),
      StockRoute("corrections", "correctStoreOwnerInventoryStock"),
      StockRoute("pause", "pauseStoreOwnerInventorySales"),
      StockRoute("resume", "resumeStoreOwnerInventorySales")
    ]
  }

  // The table of memberships in two parts.

  function InvitationRoutes(): seq<Spec> {
    [
      Spec("GET", ["merchant", "stores", "{storeId}", "members"], "listMerchantStoreMembers"),
      Spec("GET", ["merchant", "stores", "{storeId}", "invitations"], "listMerchantStoreInvitations"),
      Spec("GET", ["merchant", "invitations"], "listMerchantUserInvitations"),
      Spec("POST", ["merchant", "stores", "{storeId}", "invitations"], "createMerchantStoreInvitation"),
      Spec("POST", ["merchant", "invitations", "{invitationId}", "accept"], "acceptMerchantInvitation")
    ]
  }

  function MembershipRoutes(): seq<Spec> {
    [
      Spec("POST", ["merchant", "invitations", "{invitationId}", "revoke"], "revokeMerchantInvitation"),
      Spec("PATCH", ["merchant", "stores", "{storeId}", "members", "{userId}"], "updateMerchantStoreMemberRole"),
      Spec("DELETE", ["merchant", "stores", "{storeId}", "members", "{userId}"], "removeMerchantStoreMember"),
      Spec("GET", ["merchant", "role-catalog"], "getMerchantRoleCatalog"),
      Spec("GET", ["merchant", "users", "search"], "searchMerchantUsers")
    ]
  }

  function OperatorRoutes(): seq<Spec> {
    [
      Spec("GET", ["operator", "dashboard"], "getOperatorDashboard"),
      Spec("GET", ["operator", "orders", "{orderId}"], "getOperatorOrderDetail"),
      Spec("GET", ["operator", "payments", "{paymentId}"], "getOperatorPaymentDetail"),
      Spec("GET", ["operator", "outbox", "{messageId}"], "getOperatorOutboxDetail")
    ]
  }

  function OperatorActionRoutes(): seq<Spec> {
    [
      Spec("POST", ["operator", "orders", "{orderId}", "cancel"], "cancelOperatorOrder"),
      Spec("POST", ["operator", "outbox", "{messageId}", "retry"], "retryOperatorOutboxMessage"),
      Spec("POST", ["operator", "messages", "{messageId}", "replay"], "replayOperatorMessage")
    ]
  }

  function Manifest(): seq<Spec> {
    LoginRoutes()
    + WalletRoutes()
    + SessionRoutes()
    + OrderRoutes()
    + CheckoutRoutes()
    + PaymentRoutes()
    + StoreProfileRoutes()
    + AdminStoreCatalogRoutes()
    + StoreOwnerCatalogRoutes()
    + InventoryRoutes()
    + StockRoutes()
    + InvitationRoutes()
    + MembershipRoutes()
    + OperatorRoutes()
    + OperatorActionRoutes()
  }

  function PostCode(p: seq<string>): nat {
    match |p|
    case 1 =>
      18
    case 2 =>
      if p[0] == "auth" then (
        if p[1] == "challenges" then 0
        else if p[1] == "sessions" then 1
        else 8)
      else if p[0] == "payments" then (
        if p[1] == "transaction-hashes" then 22
        else 23)
      else (
        if p[1] == "store-users" then 32
        else 33)
    case 3 =>
      if p[1] == "wallets" then 7
      else (
        if p[2] == "refresh" then 12
        else 13)
    case 4 =>
      if p[0] == "auth" then (
        if p[3] == "authorize" then 2
        else if p[3] == "sessions" then 3
        else 4)
      else if p[0] == "admin" then 34
      else if p[0] == "merchant" then (
        if p[1] == "stores" then (
          if p[3] == "assets" then 37
          else if p[3] == "products" then 38
          else 48)
        else (
          if p[3] == "accept" then 49
          else 50))
      else (
        if p[1] == "orders" then 59
        else if p[1] == "outbox" then 60
        else 61)
    case 8 =>
      if p[7] == "intake" then 41
      else if p[7] == "corrections" then 42
      else if p[7] == "pause" then 43
      else 44
    case _ => 0
  }

  function GetCode(p: seq<string>): nat {
    match |p|
    case 1 =>
      if p[0] == "payments" then 21
      else if p[0] == "stores" then 24
      else 25
    case 2 =>
      if p[0] == "auth" then (
        if p[1] == "wallets" then 9
        else 15)
      else if p[0] == "stores" then 26
      else if p[0] == "merchant" then (
        if p[1] == "stores" then 30
        else if p[1] == "invitations" then 47
        else 53)
      else if p[0] == "store-owner" then 40
      else 55
    case 3 =>
      if p[0] == "auth" then (
        if p[1] == "oauth" then 5
        else 16)
      else if p[0] == "checkouts" then (
        if p[1] == "tracking" then 19
        else 20)
      else if p[0] == "stores" then 27
      else if p[0] == "product-assets" then 29
      else if p[0] == "merchant" then 54
      else (
        if p[1] == "orders" then 56
        else if p[1] == "payments" then 57
        else 58)
    case 4 =>
      if p[0] == "stores" then 28
      else (
        if p[3] == "products" then 35
        else if p[3] == "members" then 45
        else 46)
    case 5 =>
      36
    case _ => 0
  }

  function DeleteCode(p: seq<string>): nat {
    match |p|
    case 2 =>
      14
    case 3 =>
      11
    case 4 =>
      6
    case 5 =>
      52
    case _ => 0
  }

  function PatchCode(p: seq<string>): nat {
    match |p|
    case 3 =>
      17
    case 4 =>
      if p[0] == "auth" then 10
      else 31
    case 5 =>
      if p[3] == "products" then 39
      else 51
    case _ => 0
  }

  /** The number of the only published route that can accept a request. */
  function Code(verb: string, p: seq<string>): nat {
    if verb == "GET" then GetCode(p)
    else if verb == "POST" then PostCode(p)
    else if verb == "PATCH" then PatchCode(p)
    else DeleteCode(p)
  }

  ghost predicate Coded(spec: Spec, code: nat) {
    forall p :: Matches(spec.segments, p) ==> Code(spec.verb, p) == code
  }


  ghost predicate CodedFrom(table: seq<Spec>, base: nat) {
    forall i :: 0 <= i < |table| ==> Coded(table[i], base + i)
  }

  lemma LoginCoded()
    ensures CodedFrom(LoginRoutes(), 0)
  {
    var t := LoginRoutes();
    assert Coded(t[0], 0);
    assert Coded(t[1], 1);
    assert Coded(t[2], 2);
    assert Coded(t[3], 3);
    assert Coded(t[4], 4);
    assert Coded(t[5], 5);
    assert Coded(t[6], 6);
  }

  lemma WalletCoded()
    ensures CodedFrom(WalletRoutes(), 7)
  {
    var t := WalletRoutes();
    assert Coded(t[0], 7);
    assert Coded(t[1], 8);
    assert Coded(t[2], 9);
    assert Coded(t[3], 10);
    assert Coded(t[4], 11);
  }

  lemma SessionCoded()
    ensures CodedFrom(SessionRoutes(), 12)
  {
    var t := SessionRoutes();
    assert Coded(t[0], 12);
    assert Coded(t[1], 13);
    assert Coded(t[2], 14);
    assert Coded(t[3], 15);
    assert Coded(t[4], 16);
    assert Coded(t[5], 17);
  }

  lemma OrderCoded()
    ensures CodedFrom(OrderRoutes(), 18)
  {
  }

  lemma CheckoutCoded()
    ensures CodedFrom(CheckoutRoutes(), 19)
  {
    var t := CheckoutRoutes();
    assert Coded(t[0], 19);
    assert Coded(t[1], 20);
  }

  lemma PaymentCoded()
    ensures CodedFrom(PaymentRoutes(), 21)
  {
    var t := PaymentRoutes();
    assert Coded(t[0], 21);
    assert Coded(t[1], 22);
    assert Coded(t[2], 23);
  }

  lemma StoreProfileCoded()
    ensures CodedFrom(StoreProfileRoutes(), 24)
  {
    var t := StoreProfileRoutes();
    assert Coded(t[0], 24);
    assert Coded(t[1], 25);
    assert Coded(t[2], 26);
    assert Coded(t[3], 27);
    assert Coded(t[4], 28);
    assert Coded(t[5], 29);
    assert Coded(t[6], 30);
    assert Coded(t[7], 31);
  }

  lemma AdminStoreCatalogCoded()
    ensures CodedFrom(AdminStoreCatalogRoutes(), 32)
  {
    var t := AdminStoreCatalogRoutes();
    assert Coded(t[0], 32);
    assert Coded(t[1], 33);
    assert Coded(t[2], 34);
  }

  lemma StoreOwnerCatalogCoded()
    ensures CodedFrom(StoreOwnerCatalogRoutes(), 35)
  {
    var t := StoreOwnerCatalogRoutes();
    assert Coded(t[0], 35);
    assert Coded(t[1], 36);
    assert Coded(t[2], 37);
    assert Coded(t[3], 38);
    assert Coded(t[4], 39);
  }

  lemma InventoryCoded()
    ensures CodedFrom(InventoryRoutes(), 40)
  {
  }

  lemma StockCoded()
    ensures CodedFrom(StockRoutes(), 41)
  {
    var t := StockRoutes();
    assert Coded(t[0], 41);
    assert Coded(t[1], 42);
    assert Coded(t[2], 43);
    assert Coded(t[3], 44);
  }

  lemma InvitationCoded()
    ensures CodedFrom(InvitationRoutes(), 45)
  {
    var t := InvitationRoutes();
    assert Coded(t[0], 45);
    assert Coded(t[1], 46);
    assert Coded(t[2], 47);
    assert Coded(t[3], 48);
    assert Coded(t[4], 49);
  }

  lemma MembershipCoded()
    ensures CodedFrom(MembershipRoutes(), 50)
  {
    var t := MembershipRoutes();
    assert Coded(t[0], 50);
    assert Coded(t[1], 51);
    assert Coded(t[2], 52);
    assert Coded(t[3], 53);
    assert Coded(t[4], 54);
  }

  lemma OperatorCoded()
    ensures CodedFrom(OperatorRoutes(), 55)
  {
    var t := OperatorRoutes();
    assert Coded(t[0], 55);
    assert Coded(t[1], 56);
    assert Coded(t[2], 57);
    assert Coded(t[3], 58);
  }

  lemma OperatorActionCoded()
    ensures CodedFrom(OperatorActionRoutes(), 59)
  {
    var t := OperatorActionRoutes();
    assert Coded(t[0], 59);
    assert Coded(t[1], 60);
    assert Coded(t[2], 61);
  }

  lemma CodedAppend(table: seq<Spec>, more: seq<Spec>)
    requires CodedFrom(table, 0) && CodedFrom(more, |table|)
    ensures CodedFrom(table + more, 0)
  {
    forall i | 0 <= i < |table + more| ensures Coded((table + more)[i], i) {
      assert i >= |table| ==> Coded(more[i - |table|], |table| + (i - |table|));
    }
  }

  lemma ManifestCoded()
    ensures CodedFrom(Manifest(), 0)
  {
    var table := LoginRoutes();
    LoginCoded();
    WalletCoded();
    CodedAppend(table, WalletRoutes());
    table := table + WalletRoutes();
    SessionCoded();
    CodedAppend(table, SessionRoutes());
    table := table + SessionRoutes();
    OrderCoded();
    CodedAppend(table, OrderRoutes());
    table := table + OrderRoutes();
    CheckoutCoded();
    CodedAppend(table, CheckoutRoutes());
    table := table + CheckoutRoutes();
    PaymentCoded();
    CodedAppend(table, PaymentRoutes());
    table := table + PaymentRoutes();
    StoreProfileCoded();
    CodedAppend(table, StoreProfileRoutes());
    table := table + StoreProfileRoutes();
    AdminStoreCatalogCoded();
    CodedAppend(table, AdminStoreCatalogRoutes());
    table := table + AdminStoreCatalogRoutes();
    StoreOwnerCatalogCoded();
    CodedAppend(table, StoreOwnerCatalogRoutes());
    table := table + StoreOwnerCatalogRoutes();
    InventoryCoded();
    CodedAppend(table, InventoryRoutes());
    table := table + InventoryRoutes();
    StockCoded();
    CodedAppend(table, StockRoutes());
    table := table + StockRoutes();
    InvitationCoded();
    CodedAppend(table, InvitationRoutes());
    table := table + InvitationRoutes();
    MembershipCoded();
    CodedAppend(table, MembershipRoutes());
    table := table + MembershipRoutes();
    OperatorCoded();
    CodedAppend(table, OperatorRoutes());
    table := table + OperatorRoutes();
    OperatorActionCoded();
    CodedAppend(table, OperatorActionRoutes());
    table := table + OperatorActionRoutes();
    assert table == Manifest();
  }

  function RouteOf(spec: Spec): Route {
    Route(spec.verb, PathOf(spec.segments), Some(spec.operation))
  }

  function RoutesOf(table: seq<Spec>): (routes: seq<Route>)
    ensures |routes| == |table| && forall i :: 0 <= i < |table| ==> routes[i] == RouteOf(table[i])
  {
    if table == [] then [] else [RouteOf(table[0])] + RoutesOf(table[1..])
  }

  lemma AcceptedHasCode(spec: Spec, code: nat, verb: string, path: string)
    requires Coded(spec, code)
    requires Accepts(RouteOf(spec), verb, path)
    ensures Code(verb, PathSegments(path)) == code
  {
    assert IsPathSegments(spec.segments);
    SegmentsOfPath(spec.segments);
  }

  lemma CodesSeparate(table: seq<Spec>, i: nat, j: nat)
    requires CodedFrom(table, 0) && i < |table| && j < |table| && Overlap(RouteOf(table[i]), RouteOf(table[j]))
    ensures i == j
  {
    var verb, path :| Accepts(RouteOf(table[i]), verb, path) && Accepts(RouteOf(table[j]), verb, path);
    AcceptedHasCode(table[i], i, verb, path);
    AcceptedHasCode(table[j], j, verb, path);
  }

  lemma CodedIsDisjoint(table: seq<Spec>)
    requires CodedFrom(table, 0)
    ensures PairwiseDisjoint(RoutesOf(table))
  {
    var routes := RoutesOf(table);
    forall a, b | a in routes && b in routes && a != b ensures !Overlap(a, b) {
      var i :| 0 <= i < |routes| && routes[i] == a;
      var j :| 0 <= j < |routes| && routes[j] == b;
      if Overlap(a, b) {
        CodesSeparate(table, i, j);
      }
    }
  }

  /** No two published routes accept the same request. */
  lemma ManifestIsDisjoint()
    ensures PairwiseDisjoint(RoutesOf(Manifest()))
  {
    ManifestCoded();
    CodedIsDisjoint(Manifest());
  }

  /** The published table dispatches every request alike in whatever order its routes are registered. */
  lemma ManifestOrderDoesNotMatter()
    ensures OrderDoesNotMatter(RoutesOf(Manifest()))
  {
    ManifestIsDisjoint();
    OrderDoesNotMatterIff(RoutesOf(Manifest()));
  }
}
