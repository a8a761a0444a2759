/**
 The node's identity registry (`PersistentIdentityService`): two append-only maps, from the hash of a public key to
 the party-and-certificate registered for it, and from an X.500 name to a key hash. Name lookup composes the two.

 The hash of a public key is a field of the service: an arbitrary function, not assumed injective. Certificates
 are reduced to the public keys they certify, leaf first.
 */
module IdentityService {
  import opened Wrappers
  import opened Ledger

  datatype PublicKey = PublicKey(encoded: nat)

  datatype X500Name = X500Name(name: string)

  /** A well-known party: a name and the key it signs with. */
  datatype Party = Party(name: X500Name, owningKey: PublicKey)

  /**
   An identity with its certificate path. The leaf certificate certifies `owningKey` for `name`;
   `issuerKeys` are the keys of the certificates above it, nearest issuer first.
   */
  datatype PartyAndCertificate = PartyAndCertificate(name: X500Name, owningKey: PublicKey, issuerKeys: seq<PublicKey>)
  {
    /** The keys of the whole certificate path, leaf first. */
    function CertPath(): (keys: seq<PublicKey>)
      ensures |keys| >= 1 && keys[0] == owningKey
    {
      [owningKey] + issuerKeys
    }

    function AsParty(): Party {
      Party(name, owningKey)
    }
  }

  /** Why `registerIdentity` can throw: its certificate path has no issuer certificate to look up. */
  datatype RegisterError = CertificateIndexOutOfBounds

  datatype IdentityService = IdentityService(hash: PublicKey -> SecureHash,
                                             keyToParties: map<SecureHash, PartyAndCertificate>,
                                             principalToParties: map<X500Name, SecureHash>)

  /** `addWithDuplicatesAllowed` of an append-only map: insert when the key is absent, otherwise keep the first entry. */
  function AddIfAbsent<K, V>(m: map<K, V>, k: K, v: V): (m': map<K, V>)
    ensures m'.Keys == m.Keys + {k}
    ensures forall j :: j in m ==> m'[j] == m[j]
    ensures k !in m ==> m'[k] == v
  {
    if k in m then m else m[k := v]
  }

  /** Every key-map entry is stored under the hash of its own identity's key. */
  ghost predicate KeysConsistent(s: IdentityService) {
    forall h :: h in s.keyToParties ==> s.hash(s.keyToParties[h].owningKey) == h
  }

  /** The first service may have grown into the second: no entry of either map was removed or replaced. */
  ghost predicate Extends(s: IdentityService, s': IdentityService) {
    && (forall h :: h in s.keyToParties ==> h in s'.keyToParties && s'.keyToParties[h] == s.keyToParties[h])
    && (forall n :: n in s.principalToParties ==> n in s'.principalToParties && s'.principalToParties[n] == s.principalToParties[n])
  }

  /** What `loadIdentities` does for one well-known identity: key hash to identity, and name to key hash. */
  function LoadWellKnown(s: IdentityService, identity: PartyAndCertificate): (s': IdentityService)
    ensures s'.hash == s.hash
    ensures s'.keyToParties.Keys == s.keyToParties.Keys + {s.hash(identity.owningKey)}
    ensures s'.principalToParties.Keys == s.principalToParties.Keys + {identity.name}
    ensures identity.name !in s.principalToParties ==> s'.principalToParties[identity.name] == s.hash(identity.owningKey)
    ensures Extends(s, s')
  {
    var key := s.hash(identity.owningKey);
    s.(keyToParties := AddIfAbsent(s.keyToParties, key, identity),
       principalToParties := AddIfAbsent(s.principalToParties, identity.name, key))
  }

  /** What `loadIdentities` does for one confidential identity: only a name to key-hash binding. */
  function LoadConfidential(s: IdentityService, identity: PartyAndCertificate): (s': IdentityService)
    ensures s'.hash == s.hash
    ensures s'.keyToParties == s.keyToParties
    ensures s'.principalToParties.Keys == s.principalToParties.Keys + {identity.name}
    ensures identity.name !in s.principalToParties ==> s'.principalToParties[identity.name] == s.hash(identity.owningKey)
    ensures Extends(s, s')
  {
    s.(principalToParties := AddIfAbsent(s.principalToParties, identity.name, s.hash(identity.owningKey)))
  }

  function LoadAllWellKnown(s: IdentityService, identities: seq<PartyAndCertificate>): IdentityService
    decreases |identities|
  {
    if identities == [] then s else LoadAllWellKnown(LoadWellKnown(s, identities[0]), identities[1..])
  }

  function LoadAllConfidential(s: IdentityService, identities: seq<PartyAndCertificate>): IdentityService
    decreases |identities|
  {
    if identities == [] then s else LoadAllConfidential(LoadConfidential(s, identities[0]), identities[1..])
  }

  /** `loadIdentities(identities, confidentialIdentities)`: the well-known identities first, then the confidential ones. */
  function LoadIdentities(s: IdentityService, identities: seq<PartyAndCertificate>,
                          confidentialIdentities: seq<PartyAndCertificate>): (s': IdentityService)
    ensures s'.hash == s.hash
    ensures s'.keyToParties.Keys == s.keyToParties.Keys + set i | i in identities :: s.hash(i.owningKey)
    ensures s'.principalToParties.Keys
            == s.principalToParties.Keys + (set i | i in identities :: i.name) + (set i | i in confidentialIdentities :: i.name)
    ensures Extends(s, s')
  {
    LoadAllWellKnownEffect(s, identities);
    LoadAllWellKnownKeeps(s, identities);
    LoadAllConfidentialEffect(LoadAllWellKnown(s, identities), confidentialIdentities);
    LoadAllConfidential(LoadAllWellKnown(s, identities), confidentialIdentities)
  }

  /** Loading well-known identities adds exactly their key hashes and names. */
  lemma {:induction false} LoadAllWellKnownEffect(s: IdentityService, identities: seq<PartyAndCertificate>)
    ensures LoadAllWellKnown(s, identities).hash == s.hash
    ensures LoadAllWellKnown(s, identities).keyToParties.Keys
            == s.keyToParties.Keys + set i | i in identities :: s.hash(i.owningKey)
    ensures LoadAllWellKnown(s, identities).principalToParties.Keys
            == s.principalToParties.Keys + set i | i in identities :: i.name
    decreases |identities|
  {
    if identities != [] {
      LoadAllWellKnownEffect(LoadWellKnown(s, identities[0]), identities[1..]);
      assert forall i :: i in identities <==> i == identities[0] || i in identities[1..];
    }
  }

  /** Loading well-known identities keeps every earlier entry of both maps. */
  lemma {:induction false} LoadAllWellKnownKeeps(s: IdentityService, identities: seq<PartyAndCertificate>)
    ensures LoadAllWellKnown(s, identities).hash == s.hash
    ensures Extends(s, LoadAllWellKnown(s, identities))
    decreases |identities|
  {
    if identities != [] {
      LoadAllWellKnownKeeps(LoadWellKnown(s, identities[0]), identities[1..]);
    }
  }

  /**
   What loading well-known identities stores: under each new key hash one of the loaded identities whose key has
   that hash, and for each new name the key hash of a loaded identity of that name.
   */
  lemma {:induction false} LoadAllWellKnownEntries(s: IdentityService, identities: seq<PartyAndCertificate>)
    ensures forall h :: h in LoadAllWellKnown(s, identities).keyToParties && h !in s.keyToParties ==>
              LoadAllWellKnown(s, identities).keyToParties[h] in identities &&
              s.hash(LoadAllWellKnown(s, identities).keyToParties[h].owningKey) == h
    ensures forall n :: n in LoadAllWellKnown(s, identities).principalToParties && n !in s.principalToParties ==>
              exists i :: i in identities && i.name == n &&
                          LoadAllWellKnown(s, identities).principalToParties[n] == s.hash(i.owningKey)
    decreases |identities|
  {
    if identities != [] {
      var s1 := LoadWellKnown(s, identities[0]);
      LoadAllWellKnownEntries(s1, identities[1..]);
      LoadAllWellKnownKeeps(s1, identities[1..]);
      var s' := LoadAllWellKnown(s, identities);
      assert s' == LoadAllWellKnown(s1, identities[1..]);
      forall h | h in s'.keyToParties && h !in s.keyToParties
        ensures s'.keyToParties[h] in identities && s.hash(s'.keyToParties[h].owningKey) == h
      {
        if h in s1.keyToParties {
          assert h == s.hash(identities[0].owningKey);
        }
      }
      forall n | n in s'.principalToParties && n !in s.principalToParties
        ensures exists i :: i in identities && i.name == n && s'.principalToParties[n] == s.hash(i.owningKey)
      {
        if n in s1.principalToParties {
          assert n == identities[0].name;
        }
      }
    }
  }

  /**
   Loading confidential identities binds exactly their names, each new name to the key hash of a loaded identity of
   that name, keeps every earlier entry, and adds no key entry.
   */
  lemma {:induction false} LoadAllConfidentialEffect(s: IdentityService, identities: seq<PartyAndCertificate>)
    ensures LoadAllConfidential(s, identities).hash == s.hash
    ensures LoadAllConfidential(s, identities).keyToParties == s.keyToParties
    ensures LoadAllConfidential(s, identities).principalToParties.Keys
            == s.principalToParties.Keys + set i | i in identities :: i.name
    ensures Extends(s, LoadAllConfidential(s, identities))
    ensures forall n :: n in LoadAllConfidential(s, identities).principalToParties && n !in s.principalToParties ==>
              exists i :: i in identities && i.name == n &&
                          LoadAllConfidential(s, identities).principalToParties[n] == s.hash(i.owningKey)
    decreases |identities|
  {
    if identities != [] {
      var s1 := LoadConfidential(s, identities[0]);
      LoadAllConfidentialEffect(s1, identities[1..]);
      assert forall i :: i in identities <==> i == identities[0] || i in identities[1..];
      var s' := LoadAllConfidential(s, identities);
      forall n | n in s'.principalToParties && n !in s.principalToParties
        ensures exists i :: i in identities && i.name == n && s'.principalToParties[n] == s.hash(i.owningKey)
      {
        if n in s1.principalToParties {
          assert n == identities[0].name;
        }
      }
    }
  }

  /**
   `loadIdentities`: each new key entry holds a loaded well-known identity stored under its own key hash, so a
   consistent registry stays consistent; the confidential identities contribute no key entry.
   */
  lemma LoadIdentitiesEffect(s: IdentityService, identities: seq<PartyAndCertificate>,
                             confidentialIdentities: seq<PartyAndCertificate>)
    ensures forall h :: h in LoadIdentities(s, identities, confidentialIdentities).keyToParties && h !in s.keyToParties ==>
              LoadIdentities(s, identities, confidentialIdentities).keyToParties[h] in identities &&
              s.hash(LoadIdentities(s, identities, confidentialIdentities).keyToParties[h].owningKey) == h
    ensures KeysConsistent(s) ==> KeysConsistent(LoadIdentities(s, identities, confidentialIdentities))
  {
    LoadAllWellKnownEntries(s, identities);
    LoadAllWellKnownKeeps(s, identities);
    LoadAllConfidentialEffect(LoadAllWellKnown(s, identities), confidentialIdentities);
  }

  /**
   `loadIdentities`: each newly bound name points to the key hash of a loaded identity of that name, whether it
   came from the well-known or the confidential list.
   */
  lemma LoadIdentitiesBindsNames(s: IdentityService, identities: seq<PartyAndCertificate>,
                                 confidentialIdentities: seq<PartyAndCertificate>)
    ensures forall n :: n in LoadIdentities(s, identities, confidentialIdentities).principalToParties && n !in s.principalToParties ==>
              exists i :: (i in identities || i in confidentialIdentities) && i.name == n &&
                          LoadIdentities(s, identities, confidentialIdentities).principalToParties[n] == s.hash(i.owningKey)
  {
    LoadAllWellKnownEntries(s, identities);
    LoadAllWellKnownKeeps(s, identities);
    LoadAllConfidentialEffect(LoadAllWellKnown(s, identities), confidentialIdentities);
  }

  /** The service after `registerIdentity`, and what the call returned or threw. */
  datatype Registration = Registration(service: IdentityService, parent: Result<Option<PartyAndCertificate>, RegisterError>)

  /**
   `registerIdentity(identity)`: add key hash to identity and name to key hash (an existing entry of either map is
   kept, so the first registration of a name wins), then return the entry stored under the hash of the issuer
   certificate's key. With no issuer certificate the lookup throws after both writes.
   */
  function RegisterIdentity(s: IdentityService, identity: PartyAndCertificate): (r: Registration)
    ensures r.service.hash == s.hash
    ensures Extends(s, r.service)
    ensures r.service.keyToParties.Keys == s.keyToParties.Keys + {s.hash(identity.owningKey)}
    ensures r.service.principalToParties.Keys == s.principalToParties.Keys + {identity.name}
    ensures s.hash(identity.owningKey) !in s.keyToParties ==> r.service.keyToParties[s.hash(identity.owningKey)] == identity
    ensures identity.name !in s.principalToParties ==> r.service.principalToParties[identity.name] == s.hash(identity.owningKey)
    ensures r.parent.Err? <==> |identity.CertPath()| < 2
    ensures r.parent.Ok? && r.parent.value.Some? ==>
              var issuerHash := s.hash(identity.CertPath()[1]);
              issuerHash in r.service.keyToParties && r.parent.value.value == r.service.keyToParties[issuerHash]
    ensures r.parent.Ok? && r.parent.value.None? ==> s.hash(identity.CertPath()[1]) !in r.service.keyToParties
  {
    var identityCertChain := identity.CertPath();
    var s' := LoadWellKnown(s, identity);
    if |identityCertChain| < 2 then Registration(s', Err(CertificateIndexOutOfBounds))
    else
      var parentId := s.hash(identityCertChain[1]);
      Registration(s', Ok(if parentId in s'.keyToParties then Some(s'.keyToParties[parentId]) else None))
  }

  /** Registration keeps every key entry under the hash of its own identity's key. */
  lemma RegisterKeepsKeysConsistent(s: IdentityService, identity: PartyAndCertificate)
    requires KeysConsistent(s)
    ensures KeysConsistent(RegisterIdentity(s, identity).service)
  {
  }

  /** `certificateFromKey(owningKey)`: the identity stored under the key's hash, if any. */
  function CertificateFromKey(s: IdentityService, owningKey: PublicKey): (r: Option<PartyAndCertificate>)
    ensures r.Some? <==> s.hash(owningKey) in s.keyToParties
    ensures r.Some? ==> r.value == s.keyToParties[s.hash(owningKey)]
  {
    if s.hash(owningKey) in s.keyToParties then Some(s.keyToParties[s.hash(owningKey)]) else None
  }

  /** `certificateFromCordaX500Name(name)`: the identity stored under the hash the name is bound to, if both exist. */
  function CertificateFromX500Name(s: IdentityService, name: X500Name): (r: Option<PartyAndCertificate>)
    ensures name !in s.principalToParties ==> r.None?
    ensures r.Some? <==> name in s.principalToParties && s.principalToParties[name] in s.keyToParties
    ensures r.Some? ==> r.value == s.keyToParties[s.principalToParties[name]]
  {
    if name in s.principalToParties then
      var partyId := s.principalToParties[name];
      if partyId in s.keyToParties then Some(s.keyToParties[partyId]) else None
    else None
  }

  /** `wellKnownPartyFromX500Name(name)`: the party of the identity the name resolves to. */
  function WellKnownPartyFromX500Name(s: IdentityService, name: X500Name): (r: Option<Party>)
    ensures r.Some? <==> CertificateFromX500Name(s, name).Some?
    ensures r.Some? ==> r.value == CertificateFromX500Name(s, name).value.AsParty()
  {
    match CertificateFromX500Name(s, name)
    case Some(identity) => Some(identity.AsParty())
    case None => None
  }

  /** `getAllIdentities()`: every identity held in the key map. */
  function GetAllIdentities(s: IdentityService): (identities: set<PartyAndCertificate>)
    ensures |identities| <= |s.keyToParties|
  {
    var identities := s.keyToParties.Values;
    assert identities == set h | h in s.keyToParties :: s.keyToParties[h];
    identities
  }

  /** Every listed identity is the one `certificateFromKey` finds for its own key, and nothing else is found. */
  lemma AllIdentitiesAreKeyLookups(s: IdentityService)
    requires KeysConsistent(s)
    ensures forall p :: p in GetAllIdentities(s) ==> CertificateFromKey(s, p.owningKey) == Some(p)
    ensures forall k :: CertificateFromKey(s, k).Some? ==> CertificateFromKey(s, k).value in GetAllIdentities(s)
  {
  }

  /** An identity found by name is also the one found by its own key: the two lookups agree. */
  lemma NameLookupAgreesWithKeyLookup(s: IdentityService, name: X500Name)
    requires KeysConsistent(s)
    requires CertificateFromX500Name(s, name).Some?
    ensures CertificateFromKey(s, CertificateFromX500Name(s, name).value.owningKey) == CertificateFromX500Name(s, name)
  {
  }

  /** A first registration of a fresh name and key makes the identity reachable by key and by name. */
  lemma RegisterThenLookup(s: IdentityService, identity: PartyAndCertificate)
    requires identity.name !in s.principalToParties
    requires s.hash(identity.owningKey) !in s.keyToParties
    ensures CertificateFromKey(RegisterIdentity(s, identity).service, identity.owningKey) == Some(identity)
    ensures WellKnownPartyFromX500Name(RegisterIdentity(s, identity).service, identity.name) == Some(identity.AsParty())
    ensures identity in GetAllIdentities(RegisterIdentity(s, identity).service)
  {
  }

  /** A name already bound keeps resolving to what it resolved to before: the first registration of a name wins. */
  lemma FirstRegistrationWins(s: IdentityService, identity: PartyAndCertificate)
    requires CertificateFromX500Name(s, identity.name).Some?
    ensures CertificateFromX500Name(RegisterIdentity(s, identity).service, identity.name) == CertificateFromX500Name(s, identity.name)
  {
  }

  /**
   A name bound only by a confidential identity resolves to nothing until some well-known identity with the same
   key hash is stored.
   */
  lemma ConfidentialNameDoesNotResolve(s: IdentityService, confidential: PartyAndCertificate)
    requires confidential.name !in s.principalToParties
    requires s.hash(confidential.owningKey) !in s.keyToParties
    ensures CertificateFromX500Name(LoadIdentities(s, [], [confidential]), confidential.name).None?
  {
    assert LoadAllWellKnown(s, []) == s;
    assert [confidential][1..] == [];
    var s' := LoadConfidential(s, confidential);
    assert LoadIdentities(s, [], [confidential]) == LoadAllConfidential(s', []);
    assert s'.principalToParties[confidential.name] == s.hash(confidential.owningKey);
  }
}
