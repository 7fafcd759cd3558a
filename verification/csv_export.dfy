/**
 * The part of `generateCSV` that runs once both user lists are in hand:
 * choosing columns, joining bot users to web users on the Telegram id, and
 * assembling the CSV text; plus the paging loop of `fetchAllBotUsers`.
 */
module CsvExport {
  import opened Wrappers
  import opened Csv
  import opened Seqs

  /** A user object as field name to value; an absent key reads as `undefined`. */
  type Record = map<string, Cell>

  /** `user[field]`. */
  function Get(r: Record, field: string): (v: Cell)
    ensures field !in r ==> v == None
    ensures field in r ==> v == r[field]
  {
    if field in r then r[field] else None
  }

  /** The `gamePLay` property of a bot user: an object (with an optional score) or anything else. */
  datatype GamePlay = NotAnObject | GameObject(score: Cell)

  datatype BotUser = BotUser(fields: Record, gamePlay: GamePlay)

  /** A field-selection record in key order: each field name with its checkbox. */
  type FieldFlags = seq<(string, bool)>

  /** The filter test `f => flags[f]`. */
  function Checked(p: (string, bool)): bool {
    p.1
  }

  /** The field names of some flags, in order. */
  function Names(ps: FieldFlags): (r: seq<string>)
    ensures |r| == |ps| && forall k :: 0 <= k < |ps| ==> r[k] == ps[k].0
  {
    seq(|ps|, k requires 0 <= k < |ps| => ps[k].0)
  }

  /** `Object.keys(flags).filter(f => flags[f])`: the checked names, in key order. */
  function Enabled(flags: FieldFlags): (r: seq<string>)
    ensures |r| <= |flags|
    ensures forall f :: f in r <==> (f, true) in flags
  {
    var kept := Filter(flags, Checked);
    assert forall f :: f in Names(kept) <==> (f, true) in flags by {
      forall f
        ensures f in Names(kept) <==> (f, true) in flags
      {
        FilterMembers(flags, Checked, (f, true));
        if f in Names(kept) {
          var k :| 0 <= k < |kept| && Names(kept)[k] == f;
          assert kept[k] == (f, true);
        }
        if (f, true) in kept {
          var k :| 0 <= k < |kept| && kept[k] == (f, true);
          assert Names(kept)[k] == f;
        }
      }
    }
    Names(kept)
  }

  /**
   * `idx` lists, in increasing order, every checked position of `flags`, and the
   * k-th name is the name at `idx[k]`.
   */
  predicate InKeyOrder(idx: seq<nat>, flags: FieldFlags, names: seq<string>) {
    && |idx| == |names|
    && (forall k, l :: 0 <= k < l < |idx| ==> idx[k] < idx[l])
    && (forall k :: 0 <= k < |idx| ==> idx[k] < |flags| && flags[idx[k]] == (names[k], true))
    && (forall j :: 0 <= j < |flags| && flags[j].1 ==> j in idx)
  }

  /** The selected columns come out in key order, a repeated checked name once per occurrence. */
  lemma EnabledInOrder(flags: FieldFlags)
    ensures exists idx :: InKeyOrder(idx, flags, Enabled(flags))
  {
    var kept := Filter(flags, Checked);
    FilterPicks(flags, Checked);
    var idx :| Picks(idx, flags, Checked, kept);
    assert Enabled(flags) == Names(kept);
    forall k | 0 <= k < |idx|
      ensures flags[idx[k]] == (Enabled(flags)[k], true)
    {
      assert Checked(kept[k]);
    }
    assert InKeyOrder(idx, flags, Enabled(flags));
  }

  /** The merge key: the id as text when it is present and non-empty (truthy). */
  function Key(v: Cell): (k: Option<string>)
    ensures k.Some? ==> k.value != [] && v == Some(k.value)
    ensures v.Some? && v.value != [] ==> k == Some(v.value)
  {
    if v.Some? && v.value != [] then Some(v.value) else None
  }

  function WebKey(w: Record): Option<string> {
    Key(Get(w, "telegram_id"))
  }

  function BotKey(b: BotUser): Option<string> {
    Key(Get(b.fields, "telegramId"))
  }

  /** The copy of a bot user whose `score` is lifted out of its `gamePLay` object. */
  function Flatten(b: BotUser): (r: Record)
    ensures b.gamePlay.GameObject? ==> Get(r, "score") == b.gamePlay.score
    ensures forall f :: f != "score" ==> Get(r, f) == Get(b.fields, f)
    ensures b.gamePlay.NotAnObject? ==> r == b.fields
  {
    match b.gamePlay
    case GameObject(score) => b.fields["score" := score]
    case NotAnObject => b.fields
  }

  /** `botUsersMap`: every keyed bot user by its id, filled in list order so a later one replaces an earlier. */
  function BotIndex(bots: seq<BotUser>): (m: map<string, Record>)
    ensures forall k :: k in m ==> k != []
  {
    if bots == [] then map[]
    else
      var m := BotIndex(bots[..|bots| - 1]);
      var b := bots[|bots| - 1];
      match BotKey(b)
      case None => m
      case Some(k) => m[k := Flatten(b)]
  }

  /** The index holds exactly the ids some bot user carries. */
  lemma {:induction false} BotIndexKeys(bots: seq<BotUser>, k: string)
    ensures k in BotIndex(bots) <==> exists i :: 0 <= i < |bots| && BotKey(bots[i]) == Some(k)
  {
    if bots != [] {
      var init := bots[..|bots| - 1];
      BotIndexKeys(init, k);
      assert forall i :: 0 <= i < |init| ==> init[i] == bots[i];
    }
  }

  /** The entry for an id is the flattened last bot user carrying that id. */
  lemma {:induction false} BotIndexLastWins(bots: seq<BotUser>, i: nat)
    requires i < |bots| && BotKey(bots[i]).Some?
    requires forall j :: i < j < |bots| ==> BotKey(bots[j]) != BotKey(bots[i])
    ensures BotKey(bots[i]).value in BotIndex(bots)
    ensures BotIndex(bots)[BotKey(bots[i]).value] == Flatten(bots[i])
  {
    var init := bots[..|bots| - 1];
    if i < |bots| - 1 {
      assert init[i] == bots[i];
      BotIndexLastWins(init, i);
    }
  }

  /** `processedBotIds`: the ids of web users that found a bot user. */
  function Matched(webs: seq<Record>, index: map<string, Record>): (s: set<string>)
    ensures forall k :: k in s ==> k in index
  {
    set w, k | w in webs && WebKey(w) == Some(k) && k in index :: k
  }

  /** An id is matched exactly when it is in the index and some web user carries it. */
  lemma MatchedIff(webs: seq<Record>, index: map<string, Record>, k: string)
    ensures k in Matched(webs, index) <==> k in index && exists w :: w in webs && WebKey(w) == Some(k)
  {
    if k in index && exists w :: w in webs && WebKey(w) == Some(k) {
      var w :| w in webs && WebKey(w) == Some(k);
      assert k in set w, k | w in webs && WebKey(w) == Some(k) && k in index :: k;
    }
  }

  /** A bot user is written on a row of its own when it has no id or no web user claimed its id. */
  predicate Unclaimed(b: BotUser, matched: set<string>) {
    BotKey(b) == None || BotKey(b).value !in matched
  }

  /** The test of the bot-user loop, as a filter. */
  function UnclaimedTest(matched: set<string>): BotUser -> bool {
    b => Unclaimed(b, matched)
  }

  /** The unclaimed bot users, in list order. */
  function UnclaimedBots(bots: seq<BotUser>, matched: set<string>): (r: seq<BotUser>)
    ensures |r| <= |bots|
    ensures forall k :: 0 <= k < |r| ==> Unclaimed(r[k], matched)
  {
    Filter(bots, UnclaimedTest(matched))
  }

  /** Exactly the unclaimed bot users are kept. */
  lemma UnclaimedMembers(bots: seq<BotUser>, matched: set<string>, b: BotUser)
    ensures b in UnclaimedBots(bots, matched) <==> b in bots && Unclaimed(b, matched)
  {
    FilterMembers(bots, UnclaimedTest(matched), b);
  }

  /**
   * The kept bot users are those at increasing positions of the list, every
   * unclaimed position among them: list order is kept, and two equal unclaimed
   * bot users both get a row.
   */
  lemma UnclaimedInOrder(bots: seq<BotUser>, matched: set<string>)
    ensures exists idx :: Picks(idx, bots, UnclaimedTest(matched), UnclaimedBots(bots, matched))
  {
    FilterPicks(bots, UnclaimedTest(matched));
    var idx :| Picks(idx, bots, UnclaimedTest(matched), Filter(bots, UnclaimedTest(matched)));
    assert UnclaimedBots(bots, matched) == Filter(bots, UnclaimedTest(matched));
  }

  function Column(r: Record, fields: seq<string>): (cells: seq<Cell>)
    ensures |cells| == |fields| && forall j :: 0 <= j < |fields| ==> cells[j] == Get(r, fields[j])
  {
    seq(|fields|, j requires 0 <= j < |fields| => Get(r, fields[j]))
  }

  function Blanks(n: nat): (cells: seq<Cell>)
    ensures |cells| == n && forall j :: 0 <= j < n ==> cells[j] == Some([])
  {
    seq(n, j => Some([]))
  }

  /** A web user's row: its own fields, then those of the bot user with its id, or blanks. */
  function WebRow(w: Record, index: map<string, Record>, webFields: seq<string>, botFields: seq<string>): (row: seq<Cell>)
    ensures |row| == |webFields| + |botFields|
  {
    var k := WebKey(w);
    Column(w, webFields) + (if k.Some? && k.value in index then Column(index[k.value], botFields) else Blanks(|botFields|))
  }

  /** An unclaimed bot user's row: blank web fields, then its flattened fields. */
  function BotRow(b: BotUser, webFields: seq<string>, botFields: seq<string>): (row: seq<Cell>)
    ensures |row| == |webFields| + |botFields|
    ensures forall j :: 0 <= j < |webFields| ==> row[j] == Some([])
  {
    Blanks(|webFields|) + Column(Flatten(b), botFields)
  }

  /** The header: every web field prefixed `web_`, then every bot field prefixed `bot_`. */
  function Header(webFields: seq<string>, botFields: seq<string>): (h: seq<string>)
    ensures |h| == |webFields| + |botFields|
    ensures forall j :: 0 <= j < |webFields| ==> h[j] == "web_" + webFields[j]
    ensures forall j :: 0 <= j < |botFields| ==> h[|webFields| + j] == "bot_" + botFields[j]
  {
    seq(|webFields|, j requires 0 <= j < |webFields| => "web_" + webFields[j])
    + seq(|botFields|, j requires 0 <= j < |botFields| => "bot_" + botFields[j])
  }

  /** The export before it is turned into text. */
  datatype Table = Table(header: seq<string>, rows: seq<seq<Cell>>)

  /** One row per web user, in order. */
  function WebRowsOf(webs: seq<Record>, index: map<string, Record>, webFields: seq<string>, botFields: seq<string>): (rows: seq<seq<Cell>>)
    ensures |rows| == |webs|
    ensures forall i :: 0 <= i < |webs| ==> rows[i] == WebRow(webs[i], index, webFields, botFields)
  {
    seq(|webs|, i requires 0 <= i < |webs| => WebRow(webs[i], index, webFields, botFields))
  }

  /** One row per unclaimed bot user, in order. */
  function BotRowsOf(extra: seq<BotUser>, webFields: seq<string>, botFields: seq<string>): (rows: seq<seq<Cell>>)
    ensures |rows| == |extra|
    ensures forall i :: 0 <= i < |extra| ==> rows[i] == BotRow(extra[i], webFields, botFields)
  {
    seq(|extra|, i requires 0 <= i < |extra| => BotRow(extra[i], webFields, botFields))
  }

  /** Steps 2 to 6 of `generateCSV`. */
  function Merge(webFlags: FieldFlags, botFlags: FieldFlags, webs: seq<Record>, bots: seq<BotUser>): (t: Table)
    ensures var webFields := Enabled(webFlags);
            var botFields := Enabled(botFlags);
            && |t.header| == |webFields| + |botFields|
            && (forall j :: 0 <= j < |webFields| ==> t.header[j] == "web_" + webFields[j])
            && (forall j :: 0 <= j < |botFields| ==> t.header[|webFields| + j] == "bot_" + botFields[j])
            && forall r :: 0 <= r < |t.rows| ==> |t.rows[r]| == |webFields| + |botFields|
  {
    var webFields := Enabled(webFlags);
    var botFields := Enabled(botFlags);
    var index := BotIndex(bots);
    var extra := UnclaimedBots(bots, Matched(webs, index));
    var webRows := WebRowsOf(webs, index, webFields, botFields);
    var botRows := BotRowsOf(extra, webFields, botFields);
    SameWidth(webRows, botRows, |webFields| + |botFields|);
    Table(Header(webFields, botFields), webRows + botRows)
  }

  lemma SameWidth(a: seq<seq<Cell>>, b: seq<seq<Cell>>, w: nat)
    requires forall r :: 0 <= r < |a| ==> |a[r]| == w
    requires forall r :: 0 <= r < |b| ==> |b[r]| == w
    ensures forall r :: 0 <= r < |a + b| ==> |(a + b)[r]| == w
  {
  }

  /** The returned `totalRows`: one per data row written. */
  function TotalRows(t: Table): nat {
    |t.rows|
  }

  /** The CSV text: the header joined without escaping, then every row escaped, each ended by a line feed. */
  function Render(t: Table): (r: string)
    ensures |r| > |JoinCells(t.header)| && r[..|JoinCells(t.header)| + 1] == JoinCells(t.header) + "\n"
  {
    var line := JoinCells(t.header) + "\n";
    var rest := Document(EscapeRows(t.rows));
    assert Document([t.header] + EscapeRows(t.rows)) == line + rest by {
      assert ([t.header] + EscapeRows(t.rows))[1..] == EscapeRows(t.rows);
    }
    assert (line + rest)[..|line|] == line;
    Document([t.header] + EscapeRows(t.rows))
  }

  /**
   * Each web user gets exactly one row, first and in order; its bot cells come
   * from the last bot user with its Telegram id, or are blank when none has it.
   */
  lemma WebRows(webFlags: FieldFlags, botFlags: FieldFlags, webs: seq<Record>, bots: seq<BotUser>, i: nat)
    requires i < |webs|
    ensures var t := Merge(webFlags, botFlags, webs, bots);
            var webFields := Enabled(webFlags);
            var botFields := Enabled(botFlags);
            var row := t.rows[i];
            var k := WebKey(webs[i]);
            var l := if k.Some? then LastWithKey(bots, k.value) else None;
            && |row| == |webFields| + |botFields|
            && row[..|webFields|] == Column(webs[i], webFields)
            && row[|webFields|..] == if l.Some? then Column(Flatten(bots[l.value]), botFields) else Blanks(|botFields|)
  {
    var webFields, botFields := Enabled(webFlags), Enabled(botFlags);
    var index := BotIndex(bots);
    MergeRows(webFlags, botFlags, webs, bots);
    var row := Merge(webFlags, botFlags, webs, bots).rows[i];
    assert row == WebRow(webs[i], index, webFields, botFields);
    WebRowSplit(webs[i], index, webFields, botFields);
    var k := WebKey(webs[i]);
    if k.Some? {
      var l := LastWithKey(bots, k.value);
      BotIndexKeys(bots, k.value);
      if l.Some? {
        BotIndexLastWins(bots, l.value);
      } else {
        assert k.value !in index;
      }
    }
  }

  /** The position of the last bot user with id `k`, if any has it. */
  function LastWithKey(bots: seq<BotUser>, k: string): (l: Option<nat>)
    ensures l.Some? ==> l.value < |bots| && BotKey(bots[l.value]) == Some(k)
    ensures l.Some? ==> forall m :: l.value < m < |bots| ==> BotKey(bots[m]) != Some(k)
    ensures l.None? ==> forall m :: 0 <= m < |bots| ==> BotKey(bots[m]) != Some(k)
  {
    if bots == [] then None
    else if BotKey(bots[|bots| - 1]) == Some(k) then Some(|bots| - 1)
    else
      var l := LastWithKey(bots[..|bots| - 1], k);
      assert forall m :: 0 <= m < |bots| - 1 ==> bots[..|bots| - 1][m] == bots[m];
      l
  }

  /** The rows are the web users' rows followed by the unclaimed bot users' rows. */
  lemma MergeRows(webFlags: FieldFlags, botFlags: FieldFlags, webs: seq<Record>, bots: seq<BotUser>)
    ensures var webFields, botFields := Enabled(webFlags), Enabled(botFlags);
            var index := BotIndex(bots);
            Merge(webFlags, botFlags, webs, bots).rows
              == WebRowsOf(webs, index, webFields, botFields)
               + BotRowsOf(UnclaimedBots(bots, Matched(webs, index)), webFields, botFields)
  {
  }

  lemma WebRowSplit(w: Record, index: map<string, Record>, webFields: seq<string>, botFields: seq<string>)
    ensures var row := WebRow(w, index, webFields, botFields);
            var k := WebKey(w);
            && row[..|webFields|] == Column(w, webFields)
            && row[|webFields|..] == if k.Some? && k.value in index then Column(index[k.value], botFields) else Blanks(|botFields|)
  {
  }

  /**
   * After the web rows come the bot users that have no id or whose id no web
   * user carries, in list order, with blank web cells; so the row count is
   * the web users plus those bot users.
   */
  lemma BotRows(webFlags: FieldFlags, botFlags: FieldFlags, webs: seq<Record>, bots: seq<BotUser>)
    ensures var t := Merge(webFlags, botFlags, webs, bots);
            var extra := UnclaimedBots(bots, Matched(webs, BotIndex(bots)));
            && TotalRows(t) == |webs| + |extra|
            && forall i :: 0 <= i < |extra| ==>
                 t.rows[|webs| + i] == BotRow(extra[i], Enabled(webFlags), Enabled(botFlags))
  {
    var webFields, botFields := Enabled(webFlags), Enabled(botFlags);
    var index := BotIndex(bots);
    var extra := UnclaimedBots(bots, Matched(webs, index));
    var webRows := WebRowsOf(webs, index, webFields, botFields);
    var botRows := BotRowsOf(extra, webFields, botFields);
    var t := Merge(webFlags, botFlags, webs, bots);
    MergeRows(webFlags, botFlags, webs, bots);
    assert t.rows == webRows + botRows;
    assert |webRows| == |webs|;
    forall i | 0 <= i < |extra|
      ensures t.rows[|webs| + i] == BotRow(extra[i], webFields, botFields)
    {
      RowAfter(webRows, botRows, i);
    }
  }

  lemma RowAfter(a: seq<seq<Cell>>, b: seq<seq<Cell>>, i: nat)
    requires i < |b|
    ensures (a + b)[|a| + i] == b[i]
  {
  }

  /** A bot user is written on its own row exactly when it has no id or no web user has its id. */
  lemma UnclaimedIff(webs: seq<Record>, bots: seq<BotUser>, b: BotUser)
    requires b in bots
    ensures b in UnclaimedBots(bots, Matched(webs, BotIndex(bots)))
            <==> BotKey(b) == None || forall w :: w in webs ==> WebKey(w) != BotKey(b)
  {
    var index := BotIndex(bots);
    UnclaimedMembers(bots, Matched(webs, index), b);
    if BotKey(b).Some? {
      var k := BotKey(b).value;
      var i :| 0 <= i < |bots| && bots[i] == b;
      BotIndexKeys(bots, k);
      MatchedIff(webs, index, k);
    }
  }

  /**
   * The CSV text reads back, under the RFC 4180-style reader, as the header followed
   * by the text of every cell of every row, provided at least one column is
   * selected and no header name needs quoting.
   */
  lemma RenderReadsBack(t: Table)
    requires |t.header| >= 1
    requires forall r :: 0 <= r < |t.rows| ==> |t.rows[r]| == |t.header|
    requires forall j :: 0 <= j < |t.header| ==> !NeedsQuotes(t.header[j])
    ensures ReadDocument(Render(t)) == Some([t.header] + TextRows(t.rows))
  {
    var hs := seq(|t.header|, j requires 0 <= j < |t.header| => Some(t.header[j]));
    var all := [hs] + t.rows;
    assert EscapeAll(hs) == t.header;
    assert Texts(hs) == t.header;
    assert EscapeRows(all) == [t.header] + EscapeRows(t.rows);
    assert TextRows(all) == [t.header] + TextRows(t.rows);
    DocumentReadsBack(all);
  }

  // ---------------------------------------------------------------- fetchAllBotUsers

  /** Page size of the bot export endpoint. */
  const Take: nat := 1000

  /** What one request to `/users/export` yields: a thrown error, an unexpected body, or a page of users. */
  datatype BotPage = Threw | Malformed | Page(users: seq<BotUser>)

  datatype FetchOutcome = Fetched(users: seq<BotUser>) | FetchFailed | OutOfFuel

  /** A page that makes the loop ask for the next one. */
  predicate Full(p: BotPage) {
    p.Page? && |p.users| >= Take
  }

  /** The users of the first `n` requests (at `skip = 0, Take, 2 Take, ...`), concatenated. */
  function Collected(fetch: nat -> BotPage, n: nat): seq<BotUser> {
    if n == 0 then []
    else
      var p := fetch((n - 1) * Take);
      Collected(fetch, n - 1) + (if p.Page? then p.users else [])
  }

  /** The first `n` requests all returned full pages. */
  predicate AllFull(fetch: nat -> BotPage, n: nat) {
    forall i :: 0 <= i < n ==> Full(fetch(i * Take))
  }

  /**
   * `fetchAllBotUsers` over an abstract page source, allowed at most `fuel`
   * requests: it stops at the first short page or malformed body, keeping what
   * it collected, and fails on the first thrown request.
   */
  method FetchAllBotUsers(fetch: nat -> BotPage, fuel: nat) returns (r: FetchOutcome)
    ensures r.Fetched? ==> exists n :: 1 <= n <= fuel && AllFull(fetch, n - 1)
                             && !Full(fetch((n - 1) * Take)) && !fetch((n - 1) * Take).Threw?
                             && r.users == Collected(fetch, n)
    ensures r.FetchFailed? ==> exists n :: 0 <= n < fuel && AllFull(fetch, n) && fetch(n * Take).Threw?
    ensures r.OutOfFuel? ==> AllFull(fetch, fuel)
  {
    var users: seq<BotUser> := [];
    var skip := 0;
    var n := 0;
    while n < fuel
      invariant n <= fuel
      invariant skip == n * Take
      invariant AllFull(fetch, n)
      invariant users == Collected(fetch, n)
    {
      var page := fetch(skip);
      match page {
        case Threw =>
          return FetchFailed;
        case Malformed =>
          assert Collected(fetch, n + 1) == users + [];
          return Fetched(users);
        case Page(data) =>
          users := users + data;
          if |data| < Take {
            assert users == Collected(fetch, n + 1);
            return Fetched(users);
          }
          n := n + 1;
          skip := skip + Take;
      }
    }
    return OutOfFuel;
  }
}
