/** Configuration export and restore.  A backup names users, groups and shares by name; a restore merges
    it into the database by name ignoring case.  The members of a group and the grants and folder rules
    of a share are kept with their group or share. */
module ConfigBackup {
  import opened FolderAccess
  import opened NamedTable
  import opened Wrappers

  // ----- The database ------------------------------------------------------------------------------

  datatype UserRow = UserRow(id: string, username: string, displayName: string, email: Option<string>, admin: bool,
                             passwordHash: Option<string>, avatarColor: string, disabled: bool)

  /** Members are user ids. */
  datatype GroupRow = GroupRow(id: string, name: string, description: string, members: set<string>)

  datatype ShareRow = ShareRow(id: string, name: string, comment: string, guestAccess: Level, smb: bool, nfs: bool,
                               browseable: bool, volume: string, recycle: bool,
                               perms: map<string, Level>, groupPerms: map<string, Level>,
                               rules: map<(string, Subject), Level>)

  datatype Db = Db(settings: map<string, string>, users: seq<UserRow>, groups: seq<GroupRow>, shares: seq<ShareRow>)

  const EMPTY := Db(map[], [], [], [])

  // ----- The backup file ------------------------------------------------------------------------------

  datatype UserEntry = UserEntry(username: string, displayName: Option<string>, email: Option<string>, role: string,
                                 disabled: bool, avatarColor: Option<string>)

  datatype GroupEntry = GroupEntry(name: string, description: Option<string>, members: seq<string>)

  datatype Grant = Grant(name: string, level: string)

  datatype RuleEntry = RuleEntry(path: string, subjectType: string, subject: string, level: string)

  /** The file may leave a volume out, or say null, which the database does not take. */
  datatype ShareEntry = ShareEntry(name: string, comment: Option<string>, guestAccess: string, smbEnabled: Option<bool>,
                                   nfsEnabled: bool, browseable: Option<bool>, volume: Option<string>,
                                   recycleEnabled: bool,
                                   permissions: seq<Grant>, groupPermissions: seq<Grant>, folderRules: seq<RuleEntry>)

  datatype Backup = Backup(settings: map<string, string>, users: seq<UserEntry>, groups: seq<GroupEntry>,
                           shares: seq<ShareEntry>)

  const EXCLUDED_SETTINGS: set<string> := {"smtp", "ddns", "disk_alert_state"}

  // ----- Names and levels -------------------------------------------------------------------------------

  function LowerChar(c: char): char {
    if 'A' <= c <= 'Z' then c - 'A' + 'a' else c
  }

  function Lower(s: string): (low: string)
    ensures |low| == |s|
  {
    seq(|s|, i requires 0 <= i < |s| => LowerChar(s[i]))
  }

  lemma LowerIsEmpty(s: string)
    ensures Lower(s) == "" <==> s == ""
  {}

  function Or<T>(o: Option<T>, otherwise: T): T { if o.Some? then o.value else otherwise }

  function LevelText(level: Level): string {
    match level
    case NoAccess => "none"
    case ReadOnly => "ro"
    case ReadWrite => "rw"
  }

  /** Guest access and folder rules fall back to none, grants to read and write. */
  function LevelOr(text: string, otherwise: Level): Level {
    if text == "none" then NoAccess
    else if text == "ro" then ReadOnly
    else if text == "rw" then ReadWrite
    else otherwise
  }

  function GrantLevel(text: string): Level { if text == "ro" then ReadOnly else ReadWrite }

  // ----- Restoring users --------------------------------------------------------------------------------

  /** An account without a password never comes out enabled. */
  function UpdateUser(r: UserRow, e: UserEntry): UserRow {
    r.(displayName := Or(e.displayName, e.username), email := e.email, admin := e.role == "admin",
       disabled := r.passwordHash.None? || e.disabled)
  }

  function MakeUser(e: UserEntry, id: string): UserRow {
    UserRow(id, e.username, Or(e.displayName, e.username), e.email, e.role == "admin", None,
            Or(e.avatarColor, "#64748b"), true)
  }

  /** The primary key, the unique user name, and the unique index on it ignoring case. */
  predicate UserFits(rows: seq<UserRow>, r: UserRow) {
    forall q :: q in rows ==> q.id != r.id && q.username != r.username && Lower(q.username) != Lower(r.username)
  }

  function UserTable(): Table<UserRow, UserEntry> {
    Table((r: UserRow) => Lower(r.username), (e: UserEntry) => Lower(e.username), UpdateUser, MakeUser,
          (e: UserEntry) => true, UserFits)
  }

  function UserId(users: seq<UserRow>, name: string): Option<string> {
    var i := Find(UserTable(), users, Lower(name));
    if i.Some? then Some(users[i.value].id) else None
  }

  // ----- Restoring groups -------------------------------------------------------------------------------

  /** Names without an account are skipped. */
  function Members(lookup: string -> Option<string>, names: seq<string>): set<string> {
    set n | n in names && lookup(n).Some? :: lookup(n).value
  }

  /** The primary key and the unique name. */
  predicate GroupFits(rows: seq<GroupRow>, r: GroupRow) {
    forall q :: q in rows ==> q.id != r.id && q.name != r.name
  }

  function GroupTable(lookup: string -> Option<string>): Table<GroupRow, GroupEntry> {
    Table((r: GroupRow) => Lower(r.name), (e: GroupEntry) => Lower(e.name),
          (r: GroupRow, e: GroupEntry) => r.(description := Or(e.description, ""),
                                             members := Members(lookup, e.members)),
          (e: GroupEntry, id: string) => GroupRow(id, e.name, Or(e.description, ""), Members(lookup, e.members)),
          (e: GroupEntry) => true, GroupFits)
  }

  function GroupId(groups: seq<GroupRow>, name: string): Option<string> {
    var i := Find(GroupTable(_ => None), groups, Lower(name));
    if i.Some? then Some(groups[i.value].id) else None
  }

  // ----- Restoring shares ---------------------------------------------------------------------------------

  /** Of two grants to one subject the first stays. */
  function Grants(lookup: string -> Option<string>, ps: seq<Grant>): map<string, Level> {
    if |ps| == 0 then map[]
    else
      var m, p := Grants(lookup, ps[..|ps| - 1]), ps[|ps| - 1];
      var id := lookup(p.name);
      if id.None? || id.value in m then m else m[id.value := GrantLevel(p.level)]
  }

  /** How names are looked up: accounts and groups. */
  datatype Lookups = Lookups(user: string -> Option<string>, group: string -> Option<string>)

  function LookupsIn(users: seq<UserRow>, groups: seq<GroupRow>): Lookups {
    Lookups(name => UserId(users, name), name => GroupId(groups, name))
  }

  function SubjectOf(at: Lookups, q: RuleEntry): Option<Subject> {
    if q.subjectType == "group" then
      (var id := at.group(q.subject); if id.Some? then Some(Group(id.value)) else None)
    else
      (var id := at.user(q.subject); if id.Some? then Some(User(id.value)) else None)
  }

  /** The key a folder rule is stored under, unless it is skipped: its subject must exist, and its path
      must be valid and lie below the share. */
  function RuleKey(at: Lookups, q: RuleEntry): Option<(string, Subject)> {
    var subject, path := SubjectOf(at, q), NormalizeAclPath(q.path);
    if q.path == "" || subject.None? || path.Err? || path.value == "" then None else Some((path.value, subject.value))
  }

  /** Of two rules for one subject on one folder the last stays. */
  function Rules(at: Lookups, qs: seq<RuleEntry>): map<(string, Subject), Level> {
    if |qs| == 0 then map[]
    else
      var m, q := Rules(at, qs[..|qs| - 1]), qs[|qs| - 1];
      var key := RuleKey(at, q);
      if key.None? then m else m[key.value := LevelOr(q.level, NoAccess)]
  }

  /** The row written for an entry that gives a volume. */
  function UpdateShare(at: Lookups, r: ShareRow, e: ShareEntry): ShareRow {
    ShareRow(r.id, r.name, Or(e.comment, ""), LevelOr(e.guestAccess, NoAccess), e.smbEnabled != Some(false),
             e.nfsEnabled, e.browseable != Some(false), Or(e.volume, ""), e.recycleEnabled,
             Grants(at.user, e.permissions), Grants(at.group, e.groupPermissions), Rules(at, e.folderRules))
  }

  function MakeShare(at: Lookups, e: ShareEntry, id: string): ShareRow {
    UpdateShare(at, PlainShare(id, e.name), e)
  }

  /** The primary key and the unique name. */
  predicate ShareFits(rows: seq<ShareRow>, r: ShareRow) {
    forall q :: q in rows ==> q.id != r.id && q.name != r.name
  }

  function ShareTable(at: Lookups): Table<ShareRow, ShareEntry> {
    Table((r: ShareRow) => Lower(r.name), (e: ShareEntry) => Lower(e.name),
          (r: ShareRow, e: ShareEntry) => UpdateShare(at, r, e), (e: ShareEntry, id: string) => MakeShare(at, e, id),
          (e: ShareEntry) => e.volume.Some?, ShareFits)
  }

  /** A share with nothing set, as a row and as an entry. */
  function PlainShare(id: string, name: string): ShareRow {
    ShareRow(id, name, "", NoAccess, true, false, true, "", false, map[], map[], map[])
  }

  function PlainEntry(name: string): ShareEntry {
    ShareEntry(name, Some(""), "none", Some(true), false, Some(true), Some(""), false, [], [], [])
  }

  // ----- The whole restore ----------------------------------------------------------------------------------

  /** The fresh ids at hand, by the position of the entry that may need one. */
  datatype Ids = Ids(user: nat -> string, group: nat -> string, share: nat -> string)

  function RestoredSettings(settings: map<string, string>, from: map<string, string>): map<string, string> {
    settings + (map k | k in from && k !in EXCLUDED_SETTINGS :: from[k])
  }

  /** What the passes write when nothing is refused. */
  function Restored(d: Db, b: Backup, ids: Ids): Db {
    var users := Pass(UserTable(), d.users, b.users, ids.user);
    var groups := Pass(GroupTable(LookupsIn(users, []).user), d.groups, b.groups, ids.group);
    var shares := Pass(ShareTable(LookupsIn(users, groups)), d.shares, b.shares, ids.share);
    Db(RestoredSettings(d.settings, b.settings), users, groups, shares)
  }

  /** The restore is one transaction: a refused write takes everything back. */
  datatype Outcome = Committed(after: Db) | Aborted

  function Restore(d: Db, b: Backup, ids: Ids): Outcome {
    var users := Try(UserTable(), d.users, b.users, ids.user);
    if users.None? then Aborted
    else
      var groups := Try(GroupTable(LookupsIn(users.value, []).user), d.groups, b.groups, ids.group);
      if groups.None? then Aborted
      else
        var shares := Try(ShareTable(LookupsIn(users.value, groups.value)), d.shares, b.shares, ids.share);
        if shares.None? then Aborted
        else Committed(Db(RestoredSettings(d.settings, b.settings), users.value, groups.value, shares.value))
  }

  /** The database afterwards. */
  function Left(d: Db, b: Backup, ids: Ids): Db {
    match Restore(d, b, ids)
    case Committed(after) => after
    case Aborted => d
  }

  lemma CommittedIsRestored(d: Db, b: Backup, ids: Ids)
    ensures Restore(d, b, ids).Committed? ==> Restore(d, b, ids).after == Restored(d, b, ids)
  {
    hide UserTable, GroupTable, ShareTable, LookupsIn, Try, Pass;
    var users := Pass(UserTable(), d.users, b.users, ids.user);
    var groups := Pass(GroupTable(LookupsIn(users, []).user), d.groups, b.groups, ids.group);
    TryIsPass(UserTable(), d.users, b.users, ids.user);
    TryIsPass(GroupTable(LookupsIn(users, []).user), d.groups, b.groups, ids.group);
    TryIsPass(ShareTable(LookupsIn(users, groups)), d.shares, b.shares, ids.share);
  }

  /** A named share without a volume aborts the restore, whatever else it holds. */
  lemma MissingVolumeAborts(d: Db, b: Backup, ids: Ids, n: nat)
    requires n < |b.shares| && b.shares[n].name != "" && b.shares[n].volume.None?
    ensures Restore(d, b, ids) == Aborted && Left(d, b, ids) == d
  {
    var users := Try(UserTable(), d.users, b.users, ids.user);
    if users.Some? {
      var groups := Try(GroupTable(LookupsIn(users.value, []).user), d.groups, b.groups, ids.group);
      if groups.Some? {
        LowerIsEmpty(b.shares[n].name);
        hide Try, Lower;
        EmptyColumnRefuses(ShareTable(LookupsIn(users.value, groups.value)), d.shares, b.shares, ids.share, n);
      }
    }
  }

  /** One share that says "volume": null is enough, on an empty database as well. */
  lemma NullVolumeAborts(ids: Ids)
    ensures var e := PlainEntry("Media").(volume := None); Restore(EMPTY, Backup(map[], [], [], [e]), ids) == Aborted
  {
    var e := PlainEntry("Media").(volume := None);
    hide Restore, Left;
    MissingVolumeAborts(EMPTY, Backup(map[], [], [], [e]), ids, 0);
  }

  lemma TablesAreLawful(at: Lookups)
    ensures Lawful(UserTable()) && Lawful(GroupTable(at.user)) && Lawful(ShareTable(at))
  {
    hide Members, Grants, Rules, Lower;
  }

  // ----- What a restore may be trusted with --------------------------------------------------------------------

  /** A backup that went through goes through again and changes nothing, whatever the database and the
      backup hold. */
  lemma RestoreTwice(d: Db, b: Backup, ids: Ids, again: Ids)
    requires Restore(d, b, ids).Committed?
    ensures var once := Restore(d, b, ids).after; Restore(once, b, again) == Committed(once)
  {
    var once := Restore(d, b, ids).after;
    var users, at := LookupsIn(once.users, []).user, LookupsIn(once.users, once.groups);
    TablesAreLawful(LookupsIn(once.users, []));
    TablesAreLawful(at);
    hide Try, Lawful, UserTable, GroupTable, ShareTable, LookupsIn;
    TryTwice(UserTable(), d.users, b.users, ids.user, again.user);
    TryTwice(GroupTable(users), d.groups, b.groups, ids.group, again.group);
    TryTwice(ShareTable(at), d.shares, b.shares, ids.share, again.share);
    assert RestoredSettings(once.settings, b.settings) == once.settings;
  }

  ghost predicate NamesUser(b: Backup, username: string) {
    exists n :: 0 <= n < |b.users| && Lower(b.users[n].username) == Lower(username)
  }

  ghost predicate NamesGroup(b: Backup, name: string) {
    exists n :: 0 <= n < |b.groups| && Lower(b.groups[n].name) == Lower(name)
  }

  ghost predicate NamesShare(b: Backup, name: string) {
    exists n :: 0 <= n < |b.shares| && Lower(b.shares[n].name) == Lower(name)
  }

  /** No account goes, and none changes its id, name, password or colour; one the backup does not name
      does not change at all. */
  lemma AccountsStay(d: Db, b: Backup, ids: Ids, i: nat)
    requires i < |d.users|
    ensures var after := Left(d, b, ids).users;
      && i < |after|
      && after[i].id == d.users[i].id && after[i].username == d.users[i].username
      && after[i].passwordHash == d.users[i].passwordHash && after[i].avatarColor == d.users[i].avatarColor
      && (!NamesUser(b, d.users[i].username) ==> after[i] == d.users[i])
  {
    CommittedIsRestored(d, b, ids);
    TablesAreLawful(LookupsIn([], []));
    RowAfter(UserTable(), d.users, b.users, ids.user, i);
    hide Pass, Find, Lawful, LastOf, Lower;
  }

  /** The same for groups and their members. */
  lemma GroupsStay(d: Db, b: Backup, ids: Ids, i: nat)
    requires i < |d.groups|
    ensures var after := Left(d, b, ids).groups;
      && i < |after| && after[i].id == d.groups[i].id && after[i].name == d.groups[i].name
      && (!NamesGroup(b, d.groups[i].name) ==> after[i] == d.groups[i])
  {
    CommittedIsRestored(d, b, ids);
    var at := LookupsIn(Restored(d, b, ids).users, []);
    TablesAreLawful(at);
    RowAfter(GroupTable(at.user), d.groups, b.groups, ids.group, i);
    hide Pass, Find, Lawful, LastOf, Lower, Members;
  }

  /** The same for shares, their grants and their folder rules. */
  lemma SharesStay(d: Db, b: Backup, ids: Ids, i: nat)
    requires i < |d.shares|
    ensures var after := Left(d, b, ids).shares;
      && i < |after| && after[i].id == d.shares[i].id && after[i].name == d.shares[i].name
      && (!NamesShare(b, d.shares[i].name) ==> after[i] == d.shares[i])
  {
    CommittedIsRestored(d, b, ids);
    var after := Restored(d, b, ids);
    var at := LookupsIn(after.users, after.groups);
    TablesAreLawful(at);
    RowAfter(ShareTable(at), d.shares, b.shares, ids.share, i);
    hide Pass, Find, Lawful, LastOf, Lower, Grants, Rules;
  }

  /** A restore never opens a way in: an account it adds has no password and is disabled, and once it went
      through, an account the backup names that has no password is disabled. */
  lemma NoWayIn(d: Db, b: Backup, ids: Ids)
    ensures var after := Left(d, b, ids).users;
      && |d.users| <= |after|
      && (forall i :: |d.users| <= i < |after| ==> after[i].passwordHash.None? && after[i].disabled)
      && (Restore(d, b, ids).Committed? ==> forall n :: 0 <= n < |b.users| && b.users[n].username != "" ==>
            var i := Find(UserTable(), after, Lower(b.users[n].username));
            i.Some? && (after[i.value].passwordHash.None? ==> after[i.value].disabled))
  {
    var t, after := UserTable(), Restored(d, b, ids).users;
    CommittedIsRestored(d, b, ids);
    TablesAreLawful(LookupsIn([], []));
    NewRows(t, d.users, b.users, ids.user, (r: UserRow) => r.passwordHash.None? && r.disabled);
    forall n | 0 <= n < |b.users| && b.users[n].username != ""
      ensures var i := Find(t, after, Lower(b.users[n].username));
        i.Some? && (after[i.value].passwordHash.None? ==> after[i.value].disabled)
    {
      hide Pass, Find, Lawful, Lower, Restore;
      Settled(t, d.users, b.users, ids.user, Lower(b.users[n].username));
    }
    hide Restore, Restored, Find;
  }

  // ----- Exporting ------------------------------------------------------------------------------------------------

  datatype Named = Named(id: string, name: string)

  function UserNames(users: seq<UserRow>): seq<Named> {
    seq(|users|, i requires 0 <= i < |users| => Named(users[i].id, users[i].username))
  }

  function GroupNames(groups: seq<GroupRow>): seq<Named> {
    seq(|groups|, i requires 0 <= i < |groups| => Named(groups[i].id, groups[i].name))
  }

  /** Ids are unique, and no two names are the same ignoring case. */
  ghost predicate Distinct(names: seq<Named>) {
    && (forall n :: n in names ==> n.name != "")
    && (forall i, j :: 0 <= i < j < |names| ==>
        names[i].id != names[j].id && Lower(names[i].name) != Lower(names[j].name))
  }

  ghost predicate HasId(names: seq<Named>, id: string) { exists n :: n in names && n.id == id }

  /** The unique keys and the references of the tables: ids and names are unique, accounts ignoring case as
      well; members and grants point at rows that exist, grants are to read or to write, and rules stand on
      folders below the share.  A folder rule may outlive its subject. */
  ghost predicate WellFormed(d: Db) {
    && Distinct(UserNames(d.users))
    && UniqueGroups(d.groups)
    && UniqueShares(d.shares)
    && (forall g :: g in d.groups ==> g.name != "" && forall id :: id in g.members ==> HasId(UserNames(d.users), id))
    && (forall s :: s in d.shares ==> s.name != "" && WellFormedShare(d, s))
  }

  ghost predicate UniqueGroups(groups: seq<GroupRow>) {
    forall i, j :: 0 <= i < j < |groups| ==> groups[i].id != groups[j].id && groups[i].name != groups[j].name
  }

  ghost predicate UniqueShares(shares: seq<ShareRow>) {
    forall i, j :: 0 <= i < j < |shares| ==> shares[i].id != shares[j].id && shares[i].name != shares[j].name
  }

  ghost predicate WellFormedShare(d: Db, s: ShareRow) {
    && (forall id :: id in s.perms ==> HasId(UserNames(d.users), id) && s.perms[id] != NoAccess)
    && (forall id :: id in s.groupPerms ==> HasId(GroupNames(d.groups), id) && s.groupPerms[id] != NoAccess)
    && (forall key :: key in s.rules ==> key.0 != "" && NormalizeAclPath(key.0) == Ok(key.0))
  }

  function UserEntryOf(r: UserRow): UserEntry {
    UserEntry(r.username, Some(r.displayName), r.email,
              if r.admin then "admin" else "user", r.disabled, Some(r.avatarColor))
  }

  /** A name listed for a member. */
  ghost predicate IsMember(users: seq<Named>, members: set<string>, name: string) {
    exists u :: u in users && u.id in members && u.name == name
  }

  ghost predicate IsGroupEntry(users: seq<Named>, r: GroupRow, e: GroupEntry) {
    && e.name == r.name && e.description == Some(r.description)
    && (forall n :: n in e.members <==> IsMember(users, r.members, n))
  }

  ghost predicate IsGrant(names: seq<Named>, grants: map<string, Level>, p: Grant) {
    exists u :: u in names && u.id in grants && p == Grant(u.name, LevelText(grants[u.id]))
  }

  ghost predicate IsUserRule(users: seq<Named>, rules: map<(string, Subject), Level>, q: RuleEntry) {
    exists u :: u in users && (q.path, User(u.id)) in rules
      && q == RuleEntry(q.path, "user", u.name, LevelText(rules[(q.path, User(u.id))]))
  }

  ghost predicate IsGroupRule(groups: seq<Named>, rules: map<(string, Subject), Level>, q: RuleEntry) {
    exists g :: g in groups && (q.path, Group(g.id)) in rules
      && q == RuleEntry(q.path, "group", g.name, LevelText(rules[(q.path, Group(g.id))]))
  }

  /** Rules whose subject has gone are left behind. */
  ghost predicate IsRule(users: seq<Named>, groups: seq<Named>, rules: map<(string, Subject), Level>, q: RuleEntry) {
    IsUserRule(users, rules, q) || IsGroupRule(groups, rules, q)
  }

  ghost predicate IsShareEntry(users: seq<Named>, groups: seq<Named>, r: ShareRow, e: ShareEntry) {
    && e.name == r.name && e.comment == Some(r.comment) && e.guestAccess == LevelText(r.guestAccess)
    && e.smbEnabled == Some(r.smb) && e.nfsEnabled == r.nfs && e.browseable == Some(r.browseable)
    && e.volume == Some(r.volume) && e.recycleEnabled == r.recycle
    && (forall p :: p in e.permissions <==> IsGrant(users, r.perms, p))
    && (forall p :: p in e.groupPermissions <==> IsGrant(groups, r.groupPerms, p))
    && (forall q :: q in e.folderRules <==> IsRule(users, groups, r.rules, q))
  }

  /** The order in which rows are listed: each exactly once. */
  ghost predicate IsOrder(order: seq<nat>, n: nat) {
    |order| == n && (forall i :: 0 <= i < n ==> order[i] < n)
      && (forall i, j :: 0 <= i < j < n ==> order[i] != order[j])
  }

  ghost predicate ListsUsers(d: Db, es: seq<UserEntry>, order: seq<nat>) {
    IsOrder(order, |d.users|) && |es| == |order|
      && forall n :: 0 <= n < |es| ==> es[n] == UserEntryOf(d.users[order[n]])
  }

  ghost predicate ListsGroups(d: Db, es: seq<GroupEntry>, order: seq<nat>) {
    IsOrder(order, |d.groups|) && |es| == |order|
    && forall n :: 0 <= n < |es| ==> IsGroupEntry(UserNames(d.users), d.groups[order[n]], es[n])
  }

  ghost predicate ListsShares(d: Db, es: seq<ShareEntry>, order: seq<nat>) {
    IsOrder(order, |d.shares|) && |es| == |order|
    && forall n :: 0 <= n < |es| ==> IsShareEntry(UserNames(d.users), GroupNames(d.groups), d.shares[order[n]], es[n])
  }

  function ExportedSettings(settings: map<string, string>): map<string, string> {
    map k | k in settings && k !in EXCLUDED_SETTINGS :: settings[k]
  }

  /** A backup that says what the database holds, every list in some order. */
  ghost predicate IsExport(d: Db, b: Backup) {
    && b.settings == ExportedSettings(d.settings)
    && (exists order :: ListsUsers(d, b.users, order))
    && (exists order :: ListsGroups(d, b.groups, order))
    && (exists order :: ListsShares(d, b.shares, order))
  }
}
