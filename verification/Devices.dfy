/** The device table and the identity by which imports and syncs recognise a device. */
module Devices {
  import opened Prelude

  /** The optional columns that an import overlays. */
  datatype Facts = Facts(
    region: Option<string>, role: Option<string>, managementIp: Option<string>, hardwareRevision: Option<string>,
    ramMb: Option<int>, diskMb: Option<int>, licenses: Option<seq<string>>)

  datatype Device = Device(
    serial: Option<string>, hostname: string, site: string, facts: Facts, vendorRaw: string, modelRaw: string,
    vendor: Option<string>, model: Option<string>, platform: Option<string>, tags: Option<seq<string>>,
    netboxId: Option<nat>, netboxSyncedAt: Option<int>, source: string, lifecycle: string, updatedAt: int)

  datatype Identity = BySerial(serial: string) | ByHostAndSite(hostname: string, site: string)

  /** A serial number alone identifies a device; without one, hostname and site do. Case never matters. */
  function IdentityOf(serial: Option<string>, hostname: string, site: string): Identity {
    if serial.Some? && serial.value != "" then BySerial(Lower(serial.value))
    else ByHostAndSite(Lower(hostname), Lower(site))
  }

  /**
   Two identities are one exactly when both serials are there and equal up to case, or neither is
   there and hostname and site are.
  */
  ghost predicate SameIdentity(serial: Option<string>, hostname: string, site: string,
                               otherSerial: Option<string>, otherHostname: string, otherSite: string)
  {
    var known := serial.Some? && serial.value != "";
    var otherKnown := otherSerial.Some? && otherSerial.value != "";
    && known == otherKnown
    && if known then Lower(serial.value) == Lower(otherSerial.value)
       else Lower(hostname) == Lower(otherHostname) && Lower(site) == Lower(otherSite)
  }

  lemma IdentitiesAgreeIff(serial: Option<string>, hostname: string, site: string,
                           otherSerial: Option<string>, otherHostname: string, otherSite: string)
    ensures IdentityOf(serial, hostname, site) == IdentityOf(otherSerial, otherHostname, otherSite) <==>
            SameIdentity(serial, hostname, site, otherSerial, otherHostname, otherSite)
  {
  }

  function IdentityIn(d: Device): Identity {
    IdentityOf(d.serial, d.hostname, d.site)
  }

  /** The unique indexes on the identity of a device. */
  ghost predicate UniqueIdentities(devices: seq<Device>) {
    forall i, j :: 0 <= i < j < |devices| ==> IdentityIn(devices[i]) != IdentityIn(devices[j])
  }

  /** The position of the device with this identity, or the length of the table. */
  function FindByIdentity(devices: seq<Device>, ident: Identity): (i: nat)
    ensures i <= |devices|
    ensures i < |devices| ==> IdentityIn(devices[i]) == ident
    ensures forall j :: 0 <= j < i ==> IdentityIn(devices[j]) != ident
  {
    if devices == [] then 0
    else if IdentityIn(devices[0]) == ident then 0
    else
      var i := FindByIdentity(devices[1..], ident);
      assert forall j :: 1 <= j < i + 1 ==> devices[j] == devices[1..][j - 1];
      i + 1
  }

  lemma FindIsTheDevice(devices: seq<Device>, i: nat)
    requires UniqueIdentities(devices) && i < |devices|
    ensures FindByIdentity(devices, IdentityIn(devices[i])) == i
  {
    var k := FindByIdentity(devices, IdentityIn(devices[i]));
    assert k <= i;
  }
}
