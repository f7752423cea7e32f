/**
 The registry loader: a packaged registry file and a user override file per
 entity kind (servers, profiles), each read with a fallback, merged so that
 the user's entries replace the packaged ones whole.
 */
module Registry {
  import opened Values

  /**
   The top-level object of a registry file: its `servers` (or `profiles`)
   member, which a parsed file may lack.
   */
  datatype Document<V> = Document(section: Option<map<string, V>>)

  /** The four registry sources, all read-only. */
  datatype Sources = Sources(
    packagedServers: Stored<Document<Server>>,
    userServers: Stored<Document<Server>>,
    packagedProfiles: Stored<Document<Profile>>,
    userProfiles: Stored<Document<Profile>>)

  /** A missing file, or one that fails to read or parse, yields the fallback. */
  function LoadJsonFile<T>(file: Stored<T>, fallback: T): (r: T)
    ensures file.Parsed? ==> r == file.value
    ensures !file.Parsed? ==> r == fallback
  {
    match file
    case Parsed(v) => v
    case _ => fallback
  }

  /** The entries one source contributes to the merge; spreading an absent member adds nothing. */
  function Entries<V>(file: Stored<Document<V>>): (m: map<string, V>)
    ensures !file.Parsed? ==> m == map[]
    ensures file.Parsed? && file.value.section.Some? ==> m == file.value.section.value
    ensures file.Parsed? && file.value.section.None? ==> m == map[]
  {
    match LoadJsonFile(file, Document(Some(map[]))).section
    case Some(entries) => entries
    case None => map[]
  }

  /** `{ ...packaged, ...user }`: the user entry replaces the packaged one whole. */
  function Merge<V>(packaged: map<string, V>, user: map<string, V>): (r: map<string, V>)
    ensures r.Keys == packaged.Keys + user.Keys
    ensures forall k :: k in user ==> r[k] == user[k]
    ensures forall k :: k in packaged && k !in user ==> r[k] == packaged[k]
  {
    packaged + user
  }

  /** `getAllServers()`: every server of either file, the user's definition winning. */
  function AllServers(src: Sources): (r: map<string, Server>)
    ensures r.Keys == Entries(src.packagedServers).Keys + Entries(src.userServers).Keys
    ensures forall k :: k in Entries(src.userServers) ==> r[k] == Entries(src.userServers)[k]
    ensures forall k :: k in Entries(src.packagedServers) && k !in Entries(src.userServers) ==>
              r[k] == Entries(src.packagedServers)[k]
  {
    Merge(Entries(src.packagedServers), Entries(src.userServers))
  }

  /** `getAllProfiles()`: every profile of either file, the user's definition winning. */
  function AllProfiles(src: Sources): (r: map<string, Profile>)
    ensures r.Keys == Entries(src.packagedProfiles).Keys + Entries(src.userProfiles).Keys
    ensures forall k :: k in Entries(src.userProfiles) ==> r[k] == Entries(src.userProfiles)[k]
    ensures forall k :: k in Entries(src.packagedProfiles) && k !in Entries(src.userProfiles) ==>
              r[k] == Entries(src.packagedProfiles)[k]
  {
    Merge(Entries(src.packagedProfiles), Entries(src.userProfiles))
  }

  /** Lookup in the freshly merged servers; `None` stands for `undefined`. */
  function GetServer(src: Sources, name: string): (r: Option<Server>)
    ensures r.Some? <==> name in Entries(src.packagedServers) || name in Entries(src.userServers)
    ensures name in Entries(src.userServers) ==> r == Some(Entries(src.userServers)[name])
    ensures name !in Entries(src.userServers) && name in Entries(src.packagedServers) ==>
              r == Some(Entries(src.packagedServers)[name])
  {
    var servers := AllServers(src);
    if name in servers then Some(servers[name]) else None
  }

  function GetProfile(src: Sources, name: string): (r: Option<Profile>)
    ensures r.Some? <==> name in Entries(src.packagedProfiles) || name in Entries(src.userProfiles)
    ensures name in Entries(src.userProfiles) ==> r == Some(Entries(src.userProfiles)[name])
    ensures name !in Entries(src.userProfiles) && name in Entries(src.packagedProfiles) ==>
              r == Some(Entries(src.packagedProfiles)[name])
  {
    var profiles := AllProfiles(src);
    if name in profiles then Some(profiles[name]) else None
  }

  /** Merging with an empty user map is the identity, and so is merging an empty packaged map. */
  lemma MergeWithEmpty<V>(m: map<string, V>)
    ensures Merge(m, map[]) == m
    ensures Merge(map[], m) == m
  {
  }

  /** A user file that is missing or unreadable leaves the packaged servers as they are. */
  lemma UnreadableUserServers(src: Sources)
    requires !src.userServers.Parsed?
    ensures AllServers(src) == Entries(src.packagedServers)
  {
  }

  /** A packaged file that is missing or unreadable leaves only the user's servers. */
  lemma UnreadablePackagedServers(src: Sources)
    requires !src.packagedServers.Parsed?
    ensures AllServers(src) == Entries(src.userServers)
  {
  }
}
