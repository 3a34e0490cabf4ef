/** The two provisioners of backend/src/services and the registry that maps a store type to
    one of them. A provisioner turns a store into helm and kubectl calls; what those calls
    return is a parameter (a `CallOutcome`), and the random secrets `generatePassword` makes
    are parameters as well. */
module Provisioners {
  import opened Values

  datatype Kind = WooCommerce | Medusa

  /** `provisioners[type]` in storeService.js. */
  function Lookup(storeType: string): (k: Option<Kind>)
    ensures k == Some(WooCommerce) <==> storeType == "woocommerce"
    ensures k == Some(Medusa) <==> storeType == "medusa"
    ensures k.None? <==> storeType !in {"woocommerce", "medusa"}
  {
    if storeType == "woocommerce" then Some(WooCommerce)
    else if storeType == "medusa" then Some(Medusa)
    else None
  }

  /** The object the service hands to `provision`: its `name` is the store's slug. */
  datatype ProvisionRequest = ProvisionRequest(
    id: string,
    name: string,
    namespace: string,
    adminUser: string,
    adminPassword: Option<string>)

  datatype Urls = Urls(storeUrl: string, adminUrl: string)

  /** The outputs of the three `generatePassword` calls of one provisioning. */
  datatype Secrets = Secrets(dbRootPassword: string, dbPassword: string, adminPassword: string)

  /** The `--set` values of the WooCommerce chart. */
  datatype HelmValues = HelmValues(
    storeName: string,
    storeDomain: string,
    storePort: string,
    mariadbRootPassword: string,
    mariadbPassword: string,
    mariadbDatabase: string,
    mariadbUser: string,
    wordpressAdminUser: string,
    wordpressAdminPassword: string,
    wordpressAdminEmail: string)

  /** The external commands a provisioner issues. */
  datatype Command =
    | HelmInstall(release: string, namespace: string, values: HelmValues)
    | HelmUninstall(release: string, namespace: string)
    | KubectlDeleteNamespace(namespace: string)

  const DefaultBaseDomain := "127.0.0.1.nip.io"
  const DefaultChartPort := "80"
  const DefaultWordpressAdmin := "admin"
  const WordpressDatabase := "wordpress"
  const ReleasePrefix := "wc-"
  const MedusaProvisionMessage := "MedusaJS provisioning is not yet available. Coming soon!"
  const MedusaDeprovisionMessage := "MedusaJS deprovisioning is not yet available."

  /** JavaScript's `v || d` on an optional string: null, undefined and "" fall back to `d`. */
  function OrElse(v: Option<string>, d: string): string {
    if v.Some? && v.value != "" then v.value else d
  }

  /** `OrElse` on a string that is always present. */
  function NonEmptyOr(v: string, d: string): string {
    if v != "" then v else d
  }

  function ReleaseName(name: string): string {
    ReleasePrefix + name
  }

  /** The release `deprovision` removes: the row's slug, or its name when the slug is empty. */
  function UninstallRelease(slug: string, name: string): (r: string)
    ensures slug != "" ==> r == ReleaseName(slug)
    ensures slug == "" ==> r == ReleaseName(name)
  {
    ReleaseName(NonEmptyOr(slug, name))
  }

  /** The text before the first '.', or all of `s` when it has none. */
  function BeforeDot(s: string): (r: string)
    ensures |r| <= |s| && r == s[..|r|]
    ensures forall i :: 0 <= i < |r| ==> r[i] != '.'
  {
    if s == [] || s[0] == '.' then [] else [s[0]] + BeforeDot(s[1..])
  }

  /** The first DNS label of an `http://` URL's host. */
  function HostLabel(url: string): string {
    if |url| >= 7 && url[..7] == "http://" then BeforeDot(url[7..]) else ""
  }

  lemma {:induction false} BeforeDotAppend(a: string, b: string)
    requires forall i :: 0 <= i < |a| ==> a[i] != '.'
    requires b != [] && b[0] == '.'
    ensures BeforeDot(a + b) == a
  {
    if a == [] {
      assert a + b == b;
    } else {
      assert (a + b)[0] == a[0];
      assert (a + b)[1..] == a[1..] + b;
      BeforeDotAppend(a[1..], b);
    }
  }

  /** The WooCommerce provisioner: its configuration is read once, from BASE_DOMAIN and
      STORE_PORT, when the object is made. */
  class WooCommerceProvisioner {
    const baseDomain: string
    const storePort: string

    constructor (baseDomainEnv: Option<string>, storePortEnv: Option<string>)
      ensures baseDomain == OrElse(baseDomainEnv, DefaultBaseDomain)
      ensures storePort == OrElse(storePortEnv, "")
    {
      baseDomain := OrElse(baseDomainEnv, DefaultBaseDomain);
      storePort := OrElse(storePortEnv, "");
    }

    function StoreDomain(name: string): string {
      name + "." + baseDomain
    }

    /** No suffix without STORE_PORT; otherwise a colon and the port. */
    function PortSuffix(): (r: string)
      ensures r == "" <==> storePort == ""
      ensures r != "" ==> r == [':'] + storePort
    {
      if storePort != "" then ":" + storePort else ""
    }

    function StoreUrl(name: string): string {
      "http://" + StoreDomain(name) + PortSuffix()
    }

    function AdminUrl(name: string): string {
      StoreUrl(name) + "/wp-admin"
    }

    /** The chart values: the admin user falls back to "admin", the admin password to a
        generated one, and the chart's port to 80 when no STORE_PORT is configured. */
    function Values(req: ProvisionRequest, secrets: Secrets): (v: HelmValues)
      ensures v.storeName == req.name && v.storeDomain == StoreDomain(req.name)
      ensures v.storePort == (if storePort == "" then DefaultChartPort else storePort)
      ensures v.wordpressAdminUser == (if req.adminUser == "" then DefaultWordpressAdmin else req.adminUser)
      ensures req.adminPassword.Some? && req.adminPassword.value != "" ==> v.wordpressAdminPassword == req.adminPassword.value
      ensures (req.adminPassword.None? || req.adminPassword == Some("")) ==> v.wordpressAdminPassword == secrets.adminPassword
      ensures v.wordpressAdminEmail == v.wordpressAdminUser + "@" + v.storeDomain
      ensures v.mariadbDatabase == WordpressDatabase && v.mariadbUser == WordpressDatabase
      ensures v.mariadbRootPassword == secrets.dbRootPassword && v.mariadbPassword == secrets.dbPassword
    {
      var user := NonEmptyOr(req.adminUser, DefaultWordpressAdmin);
      var domain := StoreDomain(req.name);
      HelmValues(req.name, domain, NonEmptyOr(storePort, DefaultChartPort),
                 secrets.dbRootPassword, secrets.dbPassword, WordpressDatabase, WordpressDatabase,
                 user, OrElse(req.adminPassword, secrets.adminPassword), user + "@" + domain)
    }

    /** What `provision` resolves to once the install has answered. */
    function ProvisionOutcome(name: string, install: CallOutcome): Result<Urls, string> {
      if install.Succeeded? then Success(Urls(StoreUrl(name), AdminUrl(name))) else Failure(install.message)
    }

    /** provision: one `helm install` of release "wc-<name>"; it fails exactly when the
        install fails, with the install's message, and otherwise yields the store's URLs. */
    method Provision(req: ProvisionRequest, secrets: Secrets, install: CallOutcome)
      returns (calls: seq<Command>, r: Result<Urls, string>)
      ensures calls == [HelmInstall(ReleaseName(req.name), req.namespace, Values(req, secrets))]
      ensures r.Success? <==> install.Succeeded?
      ensures r.Failure? ==> r.error == install.message
      ensures r.Success? ==> r.value.storeUrl == StoreUrl(req.name) && r.value.adminUrl == StoreUrl(req.name) + "/wp-admin"
      ensures r == ProvisionOutcome(req.name, install)
    {
      calls := [HelmInstall(ReleaseName(req.name), req.namespace, Values(req, secrets))];
      match install
      case Succeeded =>
        r := Success(Urls(StoreUrl(req.name), AdminUrl(req.name)));
      case FailedWith(message) =>
        r := Failure(message);
    }

    /** deprovision: `helm uninstall` of the row's release, then `kubectl delete namespace`;
        a failure of either is only logged, so it always resolves. */
    method Deprovision(slug: string, name: string, namespace: string, uninstall: CallOutcome, deleteNamespace: CallOutcome)
      returns (calls: seq<Command>, r: Result<(), string>)
      ensures calls == [HelmUninstall(UninstallRelease(slug, name), namespace), KubectlDeleteNamespace(namespace)]
      ensures r == Success(())
    {
      calls := [HelmUninstall(UninstallRelease(slug, name), namespace)];
      // the uninstall's outcome is logged and otherwise ignored
      calls := calls + [KubectlDeleteNamespace(namespace)];
      r := Success(());
    }

    /** The store URL names the store: its host's first label is the provisioned name, for
        any name without a dot (every slug). */
    lemma StoreUrlNamesStore(name: string)
      requires forall i :: 0 <= i < |name| ==> name[i] != '.'
      ensures HostLabel(StoreUrl(name)) == name
      ensures HostLabel(AdminUrl(name)) == name
    {
      var d, p := baseDomain, PortSuffix();
      ConcatAssoc(name + ".", d, p);
      ConcatAssoc(name, ".", d + p);
      ConcatAssoc("http://", (name + ".") + d, p);
      UrlLabel(name, "." + (d + p));
      ConcatAssoc(name, "." + (d + p), "/wp-admin");
      ConcatAssoc("http://", name + ("." + (d + p)), "/wp-admin");
      UrlLabel(name, "." + (d + p) + "/wp-admin");
    }
  }

  lemma ConcatAssoc(a: string, b: string, c: string)
    ensures (a + b) + c == a + (b + c)
  {
  }

  lemma HostLabelOfHttp(t: string)
    ensures HostLabel("http://" + t) == BeforeDot(t)
  {
    assert ("http://" + t)[..7] == "http://";
    assert ("http://" + t)[7..] == t;
  }

  lemma UrlLabel(name: string, tail: string)
    requires forall i :: 0 <= i < |name| ==> name[i] != '.'
    requires tail != [] && tail[0] == '.'
    ensures HostLabel("http://" + (name + tail)) == name
  {
    HostLabelOfHttp(name + tail);
    BeforeDotAppend(name, tail);
  }

  /** The Medusa provisioner: both operations reject, whatever the store. */
  function MedusaProvision(req: ProvisionRequest): (r: Result<Urls, string>)
    ensures r.Failure? && r.error == MedusaProvisionMessage
  {
    Failure(MedusaProvisionMessage)
  }

  function MedusaDeprovision(slug: string, name: string, namespace: string): (r: Result<(), string>)
    ensures r.Failure? && r.error == MedusaDeprovisionMessage
  {
    Failure(MedusaDeprovisionMessage)
  }

  /** A store provisioned under a slug is uninstalled under the same release. */
  lemma ReleaseRoundTrip(slug: string, name: string)
    requires slug != ""
    ensures UninstallRelease(slug, name) == ReleaseName(slug)
    ensures UninstallRelease(slug, name)[|ReleasePrefix|..] == slug
  {
  }
}
