/** The server-list status the server keeps and answers with: a description, the
    player counts and sample, the version, and an optional icon. */
module StatusInfo {
  import opened Protocol

  datatype ServerStatus = ServerStatus(
    description: Chat, players: StatusPlayers, version: StatusVersion, favicon: Option<Favicon>)

  const VersionName: string := "Endstone 1.16.2"
  const ProtocolVersion: I32 := 753

  /** The status a new server starts with: nobody online, an empty sample, the given
      capacity, protocol 753, and no icon. */
  function InitialStatus(description: string, maxPlayers: I32): (s: ServerStatus)
    ensures s.players.online == 0 && s.players.sample == [] && s.players.max == maxPlayers
    ensures s.version.protocol == 753 && s.version.name == "Endstone 1.16.2"
    ensures s.description == Traditional(description, true) && s.favicon.None?
  {
    ServerStatus(Traditional(description, true), StatusPlayers(maxPlayers, 0, []),
                 StatusVersion(VersionName, ProtocolVersion), None)
  }

  /** The status response built from the record: everything copied as it is, with the
      version always present. */
  function SpecOf(s: ServerStatus): (spec: StatusSpec)
    ensures spec.description == s.description && spec.favicon == s.favicon && spec.players == s.players
    ensures spec.version == Some(s.version)
  {
    StatusSpec(s.description, s.favicon, s.players, Some(s.version))
  }

  function EntryOf(k: NameUuid): SampleEntry {
    SampleEntry(k.uuid, k.name)
  }

  /** `sample` lists every identity of `keys` once and nothing else, in some order. */
  ghost predicate Enumerates(sample: seq<SampleEntry>, keys: set<NameUuid>) {
    && |sample| == |keys|
    && (forall i :: 0 <= i < |sample| ==> NameUuid(sample[i].name, sample[i].id) in keys)
    && (forall k :: k in keys ==> EntryOf(k) in sample)
    && (forall i, j :: 0 <= i < j < |sample| ==> sample[i] != sample[j])
  }

  /** The loop of the status handler that pushes one sample entry per registered
      identity, visiting the keys in the map's (unspecified) iteration order. */
  method BuildSample(keys: set<NameUuid>) returns (sample: seq<SampleEntry>)
    ensures Enumerates(sample, keys)
  {
    sample := [];
    var remaining := keys;
    while remaining != {}
      invariant remaining <= keys
      invariant |sample| + |remaining| == |keys|
      invariant forall i :: 0 <= i < |sample| ==> NameUuid(sample[i].name, sample[i].id) in keys - remaining
      invariant forall k :: k in keys - remaining ==> EntryOf(k) in sample
      invariant forall i, j :: 0 <= i < j < |sample| ==> sample[i] != sample[j]
      decreases |remaining|
    {
      var k :| k in remaining;
      sample := sample + [EntryOf(k)];
      remaining := remaining - {k};
    }
  }
}
