/**
  The durable session-routing tables and the transactions on them, as functions from one
  committed database state to the next.

  `session_roots` names the trees, `session_route_keys` maps every claimed fingerprint to the
  root of its tree, and `affinity` holds the sticky account of each fingerprint together with
  the generation of the route command that wrote it.
 */
module Routes {
  import opened Base
  import opened RouteKeys

  type Account = nat

  datatype Action = Rebalance | Reroute
  datatype Status = Applied | Fallback | Pending | NoOp

  datatype Root = Root(
    generation: nat,
    action: Option<Action>,
    requested: Option<Account>,
    effective: Option<Account>,
    status: Option<Status>)

  datatype KeyRow = KeyRow(root: Hash, kind: Kind)
  datatype Route = Route(kind: Kind, account: Account, generation: nat)

  datatype Db = Db(
    accounts: map<Account, string>,
    roots: map<Hash, Root>,
    keys: map<Hash, KeyRow>,
    affinity: map<Hash, Route>)

  datatype Epoch = Epoch(root: Hash, generation: nat)

  datatype Error = BadRequest | NotFound | Overflow | ForeignKey

  /** A route command; a target has already been resolved from a label or UUID to an account id. */
  datatype Request = Request(root: string, keys: seq<RawKey>, action: Action, target: Option<Account>, dryRun: bool)

  /**
    What a command reads besides the routing tables: which accounts are eligible at this
    instant, which one the smart selector would pick, and the accounts of live connections.
   */
  datatype Env = Env(eligible: set<Account>, choice: Option<Account>, live: set<Account>)

  datatype Response = Response(
    status: Status,
    requested: Option<string>,
    effective: Option<string>,
    previous: set<string>,
    generation: nat,
    linked: nat,
    changed: nat,
    merged: nat)

  /** Everything a command decides before it writes. */
  datatype Decision = Decision(
    roots: set<Hash>,
    keys: map<Hash, Kind>,
    effective: Option<Account>,
    move: bool,
    current: nat,
    generation: nat,
    response: Response)

  const FRESH_ROOT: Root := Root(0, None, None, None, None)

  // ---------------------------------------------------------------- reading

  function DisplayLabel(name: string): string {
    if name == "" then "unlabeled" else name
  }

  function LabelOf(accounts: map<Account, string>, account: Option<Account>): Option<string> {
    if account.Some? && account.value in accounts then Some(DisplayLabel(accounts[account.value])) else None
  }

  /** The roots the supplied fingerprints are already mapped to. */
  function PriorRoots(table: map<Hash, KeyRow>, input: map<Hash, Kind>): set<Hash> {
    set k | k in input && k in table :: table[k].root
  }

  /** Every claimed fingerprint of the given trees. */
  function KeysUnder(table: map<Hash, KeyRow>, roots: set<Hash>): set<Hash> {
    set k | k in table && table[k].root in roots
  }

  /** Existing keys of the trees being merged, overlaid with the supplied keys. */
  function MergedKeys(table: map<Hash, KeyRow>, roots: set<Hash>, input: map<Hash, Kind>): map<Hash, Kind> {
    map k | k in KeysUnder(table, roots) + input.Keys :: if k in input then input[k] else table[k].kind
  }

  function RootGenerations(table: map<Hash, Root>, roots: set<Hash>): set<nat> {
    set r | r in roots && r in table :: table[r].generation
  }

  function RoutedKeys(accounts: map<Account, string>, affinity: map<Hash, Route>, keys: set<Hash>): set<Hash> {
    set k | k in keys && k in affinity && affinity[k].account in accounts
  }

  function RouteGenerations(affinity: map<Hash, Route>, routed: set<Hash>): set<nat> {
    set k | k in routed && k in affinity :: affinity[k].generation
  }

  predicate MappingChanged(table: map<Hash, KeyRow>, existed: bool, root: Hash, roots: set<Hash>,
                           keys: map<Hash, Kind>)
  {
    var existing := KeysUnder(table, roots);
    || !existed
    || |existing| != |keys|
    || (exists k | k in keys :: k !in existing || table[k] != KeyRow(root, keys[k]))
  }

  /** The keys whose sticky route does not yet name the effective account under the right kind. */
  function ChangedKeys(accounts: map<Account, string>, affinity: map<Hash, Route>, keys: map<Hash, Kind>,
                       account: Account)
    : set<Hash>
  {
    var routed := RoutedKeys(accounts, affinity, keys.Keys);
    set k | k in keys && !(k in routed && affinity[k].account == account && affinity[k].kind == keys[k])
  }

  function PreviousLabels(accounts: map<Account, string>, affinity: map<Hash, Route>, routed: set<Hash>,
                          live: set<Account>)
    : set<string>
  {
    (set k | k in routed && k in affinity && affinity[k].account in accounts ::
       DisplayLabel(accounts[affinity[k].account]))
    + (set a | a in live && a in accounts :: DisplayLabel(accounts[a]))
  }

  /** The requested account when it is eligible, otherwise whatever the smart selector picks. */
  function EffectiveAccount(target: Option<Account>, env: Env): Option<Account> {
    if target.Some? && target.value in env.eligible then target else env.choice
  }

  /** What one route command reads inside its transaction. */
  datatype Snapshot = Snapshot(
    targetKnown: bool,
    prior: set<Hash>,
    keys: map<Hash, Kind>,
    routed: set<Hash>,
    rootGeneration: nat,
    generations: set<nat>,
    remapped: bool,
    changed: nat,
    requested: Option<string>,
    effective: Option<string>,
    previous: set<string>)

  function Read(db: Db, existed: bool, root: Hash, input: map<Hash, Kind>, target: Option<Account>,
                env: Env): Snapshot
  {
    var prior := PriorRoots(db.keys, input);
    var roots := prior + {root};
    var keys := MergedKeys(db.keys, roots, input);
    var routed := RoutedKeys(db.accounts, db.affinity, keys.Keys);
    var effective := EffectiveAccount(target, env);
    Snapshot(
      target.Some? ==> target.value in db.accounts,
      prior,
      keys,
      routed,
      MaxOf(RootGenerations(db.roots, roots)),
      RouteGenerations(db.affinity, routed),
      MappingChanged(db.keys, existed, root, roots, keys),
      if effective.Some? then |ChangedKeys(db.accounts, db.affinity, keys, effective.value)| else 0,
      LabelOf(db.accounts, target),
      LabelOf(db.accounts, effective),
      PreviousLabels(db.accounts, db.affinity, routed, env.live))
  }

  function Newest(s: Snapshot): nat {
    if s.rootGeneration < MaxOf(s.generations) then MaxOf(s.generations) else s.rootGeneration
  }

  /** Whether the routes must be rewritten under a new generation. */
  predicate RequiresMove(s: Snapshot, effective: Option<Account>, env: Env) {
    && effective.Some?
    && (|| s.changed != 0
        || (exists a | a in env.live :: a != effective.value)
        || s.remapped
        || (exists g | g in s.generations :: g != Newest(s)))
  }

  function StatusOf(target: Option<Account>, effective: Option<Account>, env: Env, move: bool): Status {
    if effective.None? then Pending
    else if target.Some? && target.value !in env.eligible then Fallback
    else if move then Applied
    else NoOp
  }

  function Judge(s: Snapshot, existed: bool, root: Hash, target: Option<Account>, env: Env): Result<Decision, Error> {
    var effective := EffectiveAccount(target, env);
    var move := RequiresMove(s, effective, env);
    var generation := if move then Newest(s) + 1 else Newest(s);
    if !s.targetKnown then Err(NotFound)
    else if !existed && s.prior == {} && s.routed == {} && env.live == {} then Err(NotFound)
    else if move && generation > I64_MAX then Err(Overflow)
    else
      Ok(Decision(s.prior + {root}, s.keys, effective, move, Newest(s), generation,
                  Response(StatusOf(target, effective, env, move), s.requested, s.effective, s.previous,
                           generation, |s.keys|, s.changed, |s.prior - {root}|)))
  }

  /** The reads and the decision of one route command, shared by real and dry runs. */
  function Decide(db: Db, existed: bool, root: Hash, input: map<Hash, Kind>, target: Option<Account>, env: Env)
    : Result<Decision, Error>
  {
    Judge(Read(db, existed, root, input, target, env), existed, root, target, env)
  }

  /** The checks made before the transaction opens. */
  function Checked(request: Request): Option<map<Hash, Kind>> {
    var keys := Validate(request.keys);
    if !ValidHash(request.root) || keys.None? then None
    else
      CollectSound(request.keys);
      var input := KeyTable(keys.value);
      if Hash(request.root) !in input then None
      else if (request.action == Rebalance) != request.target.None? then None
      else Some(input)
  }

  // ---------------------------------------------------------------- writing

  function WithRoot(db: Db, root: Hash): Db {
    if root in db.roots then db else db.(roots := db.roots[root := FRESH_ROOT])
  }

  function ClaimKeys(keys: map<Hash, KeyRow>, root: Hash, claimed: map<Hash, Kind>): map<Hash, KeyRow> {
    map k | k in keys.Keys + claimed.Keys :: if k in claimed then KeyRow(root, claimed[k]) else keys[k]
  }

  function WriteRoutes(affinity: map<Hash, Route>, keys: map<Hash, Kind>, account: Account, generation: nat)
    : map<Hash, Route>
  {
    map k | k in affinity.Keys + keys.Keys ::
      if k in keys then Route(keys[k], account, generation) else affinity[k]
  }

  /** The committed state of a command: trees merged, keys claimed, routes rewritten if it moves. */
  function Commit(db: Db, root: Hash, action: Action, target: Option<Account>, d: Decision): Db {
    Db(
      db.accounts,
      (db.roots - d.roots)[root := Root(d.generation, Some(action), target, d.effective, Some(d.response.status))],
      ClaimKeys(db.keys, root, d.keys),
      if d.move && d.effective.Some?
      then WriteRoutes(db.affinity, d.keys, d.effective.value, d.generation)
      else db.affinity)
  }

  /** One route command.  A dry run decides on the untouched state and writes nothing. */
  function Apply(db: Db, request: Request, env: Env): (Db, Result<Response, Error>) {
    var checked := Checked(request);
    if checked.None? then (db, Err(BadRequest))
    else
      var root := Hash(request.root);
      var existed := root in db.roots;
      var seen := if request.dryRun then db else WithRoot(db, root);
      match Decide(seen, existed, root, checked.value, request.target, env)
      case Err(e) => (db, Err(e))
      case Ok(d) =>
        (if request.dryRun then db else Commit(seen, root, request.action, request.target, d), Ok(d.response))
  }

  // ---------------------------------------------------------------- binding

  /** Sticky rows written by a bind never overwrite a row of a later generation. */
  function BindRoutes(affinity: map<Hash, Route>, keys: map<Hash, Kind>, account: Account, generation: nat)
    : map<Hash, Route>
  {
    map k | k in affinity.Keys + keys.Keys ::
      if k in keys && (k !in affinity || affinity[k].generation <= generation)
      then Route(keys[k], account, generation)
      else affinity[k]
  }

  /** Moves every sticky row of one tree to the account that actually serves it. */
  function FollowAccount(affinity: map<Hash, Route>, keys: map<Hash, KeyRow>, root: Hash, account: Account,
                         generation: nat)
    : map<Hash, Route>
  {
    map k | k in affinity ::
      if k in keys && keys[k].root == root then Route(affinity[k].kind, account, generation) else affinity[k]
  }

  predicate Current(db: Db, epoch: Epoch) {
    epoch.root in db.roots && db.roots[epoch.root].generation == epoch.generation
  }

  predicate Foreign(db: Db, root: Hash, input: map<Hash, Kind>) {
    exists k | k in input :: k in db.keys && db.keys[k].root != root
  }

  function BindAtEpoch(db: Db, input: map<Hash, Kind>, account: Account, epoch: Epoch): (Db, Result<bool, Error>) {
    if !Current(db, epoch) || Foreign(db, epoch.root, input) then (db, Ok(false))
    else if account !in db.accounts then (db, Err(ForeignKey))
    else
      var row := db.roots[epoch.root];
      var keys := ClaimKeys(db.keys, epoch.root, input);
      var affinity := BindRoutes(db.affinity, input, account, epoch.generation);
      if row.action == Some(Reroute) && row.effective != Some(account) then
        var status := if row.requested != Some(account) then Fallback else Applied;
        (Db(db.accounts,
            db.roots[epoch.root := row.(effective := Some(account), status := Some(status))],
            keys,
            FollowAccount(affinity, keys, epoch.root, account, epoch.generation)),
         Ok(true))
      else
        (db.(keys := keys, affinity := affinity), Ok(true))
  }

  /** The fingerprint that names a new tree: the first session id, else the first key. */
  function PreferredRoot(keys: seq<RouteKey>): Hash
    requires keys != []
  {
    if keys[0].kind == SESSION_ID || |keys| == 1 then keys[0].hash
    else
      var rest := PreferredRoot(keys[1..]);
      if exists k | k in keys[1..] :: k.kind == SESSION_ID then rest else keys[0].hash
  }

  /** Rows written without an epoch keep the generation they had. */
  function LegacyRoutes(affinity: map<Hash, Route>, keys: map<Hash, Kind>, account: Account): map<Hash, Route> {
    map k | k in affinity.Keys + keys.Keys ::
      if k in keys then Route(keys[k], account, if k in affinity then affinity[k].generation else 0) else affinity[k]
  }

  /** The root a legacy bind attaches to: the one its keys already belong to, else a new one. */
  function LegacyRoot(table: map<Hash, KeyRow>, input: map<Hash, Kind>, preferred: Hash): Hash {
    var mapped := PriorRoots(table, input);
    if exists r | r in mapped :: mapped == {r} then (var r :| r in mapped && mapped == {r}; r) else preferred
  }

  /** A tree is unclaimed while no route command has touched it. */
  predicate Untouched(row: Root) {
    row.generation == 0 && row.action.None?
  }

  function BindLegacy(db: Db, input: map<Hash, Kind>, preferred: Hash, account: Account): (Db, Result<bool, Error>) {
    var mapped := PriorRoots(db.keys, input);
    if |mapped| > 1 || (exists r | r in mapped :: r in db.roots && !Untouched(db.roots[r])) then (db, Ok(false))
    else if account !in db.accounts then (db, Err(ForeignKey))
    else
      var root := LegacyRoot(db.keys, input, preferred);
      (Db(db.accounts,
          WithRoot(db, root).roots,
          ClaimKeys(db.keys, root, input),
          LegacyRoutes(db.affinity, input, account)),
       Ok(true))
  }

  function BindKeys(db: Db, keys: seq<RouteKey>, account: Account, epoch: Option<Epoch>): (Db, Result<bool, Error>)
    requires Distinct(keys) && keys != []
  {
    var input := KeyTable(keys);
    match epoch
    case Some(e) => BindAtEpoch(db, input, account, e)
    case None => BindLegacy(db, input, PreferredRoot(keys), account)
  }

  /** Binds sticky keys to an account, if the epoch captured earlier is still the current one. */
  function Bind(db: Db, raw: seq<RawKey>, account: Account, epoch: Option<Epoch>): (Db, Result<bool, Error>) {
    var keys := Validate(raw);
    if keys.None? then (db, Err(BadRequest))
    else if keys.value == [] then (db, Ok(true))
    else
      CollectSound(raw);
      BindKeys(db, keys.value, account, epoch)
  }

  // ---------------------------------------------------------------- maintenance

  /** Pruning deletes sticky rows only; which ones depends on their timestamps. */
  function Prune(db: Db, expired: set<Hash>): Db {
    db.(affinity := db.affinity - expired)
  }

  function ForgetAccount(account: Option<Account>, deleted: Account): Option<Account> {
    if account == Some(deleted) then None else account
  }

  /** Deleting an account cascades to its sticky rows and clears the roots that mention it. */
  function DeleteAccount(db: Db, deleted: Account): Db {
    Db(
      db.accounts - {deleted},
      map r | r in db.roots ::
        db.roots[r].(requested := ForgetAccount(db.roots[r].requested, deleted),
                     effective := ForgetAccount(db.roots[r].effective, deleted)),
      db.keys,
      map k | k in db.affinity && db.affinity[k].account != deleted :: db.affinity[k])
  }

  function AddAccount(db: Db, account: Account, name: string): Db {
    db.(accounts := db.accounts[account := name])
  }
}
