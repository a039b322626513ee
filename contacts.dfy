/** `_update_contacts_dict`: the contacts a remote site keeps when the
    central site's users are synchronised to it. The central site decides
    who exists and everything about its global users; a customer user keeps
    the notification rules the remote site already has for them. */
module ContactsSync {
  import opened Wrappers

  /** A user's settings: the customer it belongs to (`None` for a global
      user), its personal notification rules when it has the setting, and
      every other setting by name. */
  datatype Contact = Contact(customer: Option<string>, notificationRules: Option<seq<string>>,
                             settings: map<string, string>)

  predicate IsGlobal(c: Contact)
  {
    c.customer.None?
  }

  /** One user after the synchronisation, from the central site's record
      and the remote site's one if there is one. */
  function MergedContact(master: Contact, slave: Option<Contact>): (c: Contact)
    ensures c.customer == master.customer && c.settings == master.settings
    ensures c.notificationRules == master.notificationRules ||
      (!IsGlobal(master) && slave.Some? && c.notificationRules == slave.value.notificationRules)
  {
    if IsGlobal(master) then master
    else match slave
      case Some(s) => if s.notificationRules.Some? then master.(notificationRules := s.notificationRules) else master
      case None => master
  }

  function UpdateContacts(master: map<string, Contact>, slave: map<string, Contact>): (r: map<string, Contact>)
    ensures r.Keys == master.Keys
  {
    map u | u in master :: MergedContact(master[u], if u in slave then Some(slave[u]) else None)
  }

  /** Every user keeps the central site's customer and other settings;
      only a customer user's notification rules can come from the remote
      site. */
  lemma MasterSettingsKept(master: map<string, Contact>, slave: map<string, Contact>, u: string)
    requires u in master
    ensures var r := UpdateContacts(master, slave)[u];
      r.customer == master[u].customer && r.settings == master[u].settings
  {
  }

  /** A global user is the central site's record. */
  lemma GlobalUserFromMaster(master: map<string, Contact>, slave: map<string, Contact>, u: string)
    requires u in master && IsGlobal(master[u])
    ensures UpdateContacts(master, slave)[u] == master[u]
  {
  }

  /** A customer user takes the remote site's notification rules when the
      remote site has them, and the central site's otherwise. */
  lemma CustomerUserRules(master: map<string, Contact>, slave: map<string, Contact>, u: string)
    requires u in master && !IsGlobal(master[u])
    ensures UpdateContacts(master, slave)[u].notificationRules ==
      if u in slave && slave[u].notificationRules.Some? then slave[u].notificationRules
      else master[u].notificationRules
  {
  }

  /** With nothing on the remote site the result is the central site's
      contacts. */
  lemma NewSite(master: map<string, Contact>)
    ensures UpdateContacts(master, map[]) == master
  {
    var r := UpdateContacts(master, map[]);
    assert forall u :: u in master ==> r[u] == master[u];
  }

  /** Synchronising twice against the same remote site changes nothing
      more. */
  lemma UpdateIdempotent(master: map<string, Contact>, slave: map<string, Contact>)
    ensures UpdateContacts(UpdateContacts(master, slave), slave) == UpdateContacts(master, slave)
  {
    var r := UpdateContacts(master, slave);
    var r2 := UpdateContacts(r, slave);
    forall u | u in r
      ensures r2[u] == r[u]
    {
      assert IsGlobal(r[u]) == IsGlobal(master[u]);
    }
  }

  /** A site synchronised with itself is unchanged. */
  lemma SameSite(contacts: map<string, Contact>)
    ensures UpdateContacts(contacts, contacts) == contacts
  {
    var r := UpdateContacts(contacts, contacts);
    forall u | u in contacts
      ensures r[u] == contacts[u]
    {
    }
  }

  /** The three cases the source's own tests fix: a user only the remote
      site has is dropped; a new site gets the central contacts; a global
      user's rules come from the centre while a customer user's come from
      the remote site. */
  lemma SourceCases()
    ensures var tribe := Contact(Some("tribe"), None, map[]);
      UpdateContacts(map["first" := tribe], map["first" := tribe, "second" := tribe]) == map["first" := tribe]
    ensures var admin := Contact(None, Some(["adminevery"]), map[]);
      var first := Contact(Some("tribe"), Some([]), map[]);
      UpdateContacts(map["cmkadmin" := admin, "first" := first], map[]) == map["cmkadmin" := admin, "first" := first]
    ensures var admin := Contact(None, Some(["all admins"]), map[]);
      var first := Contact(Some("tribe"), Some([]), map[]);
      var remoteAdmin := Contact(None, Some(["adminevery"]), map[]);
      var remoteFirst := Contact(Some("tribe"), Some(["Host on fire"]), map[]);
      UpdateContacts(map["cmkadmin" := admin, "first" := first], map["cmkadmin" := remoteAdmin, "first" := remoteFirst])
        == map["cmkadmin" := admin, "first" := remoteFirst]
  {
    var tribe := Contact(Some("tribe"), None, map[]);
    var r1 := UpdateContacts(map["first" := tribe], map["first" := tribe, "second" := tribe]);
    assert r1["first"] == tribe;
    NewSite(map["cmkadmin" := Contact(None, Some(["adminevery"]), map[]), "first" := Contact(Some("tribe"), Some([]), map[])]);
    var admin := Contact(None, Some(["all admins"]), map[]);
    var first := Contact(Some("tribe"), Some([]), map[]);
    var remoteFirst := Contact(Some("tribe"), Some(["Host on fire"]), map[]);
    var m := map["cmkadmin" := admin, "first" := first];
    var s := map["cmkadmin" := Contact(None, Some(["adminevery"]), map[]), "first" := remoteFirst];
    var r3 := UpdateContacts(m, s);
    assert r3["cmkadmin"] == admin;
    assert r3["first"] == remoteFirst;
  }
}
