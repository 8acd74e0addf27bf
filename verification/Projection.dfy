/**
 * The conversation view: crates/epochgrid-core/src/relationships.rs. The event index of one group is
 * a table of rows; `source` stands for what was decrypted, from which the stored id, sender and
 * event follow. The layout of the text is a function of the `View` and is left out.
 */
module Projection {
  import opened Prelude
  import opened Wire

  type MessageId = Digest

  datatype Relation = ReplyTo(id: MessageId) | Replace(id: MessageId) | Reaction(id: MessageId, value: string,
    add: bool)

  datatype Event = Event(nonce: Bytes, counter: nat, content: Bytes, relation: Option<Relation>)

  /** An application event, or a plain message from before there were any. */
  datatype Source = Sent(sender: string, event: Event) | Legacy(sender: string, ciphertext: Bytes, plaintext: Bytes)

  /** What is hashed into a message id. */
  datatype IdKey = SentKey(gid: string, sender: string, wire: Bytes) | LegacyKey(gid: string, ciphertext: Bytes)

  datatype Row = Row(row: nat, sequence: Option<nat>, source: Source)

  datatype Env = Env(gid: string, hash: Bytes -> Digest, keys: Codec<IdKey>, events: Codec<Event>, utf8: Bytes -> bool)

  ghost predicate Sane(env: Env) {
    RoundTrips(env.keys) && RoundTrips(env.events)
  }

  // ---- Identity ----

  function KeyOf(env: Env, s: Source): IdKey {
    match s
    case Sent(sender, event) => SentKey(env.gid, sender, env.events.encode(event))
    case Legacy(_, ciphertext, _) => LegacyKey(env.gid, ciphertext)
  }

  /** `index_application`: the id of a decrypted message. */
  function IdOf(env: Env, s: Source): MessageId {
    env.hash(env.keys.encode(KeyOf(env, s)))
  }

  function EventOf(s: Source): Event {
    match s
    case Sent(_, event) => event
    case Legacy(_, _, plaintext) => Event(seq(16, _ => 0), 0, plaintext, None)
  }

  predicate IsRoot(s: Source) {
    EventOf(s).relation.None? || EventOf(s).relation.value.ReplyTo?
  }

  /** One ciphertext decrypts to one message: the payload column of the transcript is unique. */
  ghost predicate OnePerCiphertext(sources: set<Source>) {
    forall a, b | a in sources && b in sources && a.Legacy? && b.Legacy? && a.ciphertext == b.ciphertext :: a == b
  }

  ghost predicate UniqueIds(env: Env, sources: set<Source>) {
    forall a, b {:trigger IdOf(env, a), IdOf(env, b)} | a in sources && b in sources && IdOf(env, a) == IdOf(env, b) ::
        a == b
  }

  lemma KeyTellsSource(env: Env, a: Source, b: Source)
    requires Sane(env) && KeyOf(env, a) == KeyOf(env, b)
    ensures a == b || (a.Legacy? && b.Legacy? && a.ciphertext == b.ciphertext)
  {
    if a.Sent? {
      assert env.events.decode(env.events.encode(a.event)) == Some(a.event);
      assert env.events.decode(env.events.encode(b.event)) == Some(b.event);
    }
  }

  /** The keys hashed for two of these very messages collide. */
  ghost predicate IdClash(env: Env, sources: set<Source>) {
    exists a, b :: KeysCollide(env, sources, a, b)
  }

  ghost predicate KeysCollide(env: Env, sources: set<Source>, a: Source, b: Source) {
    && a in sources && b in sources
    && Collides(env.hash, env.keys.encode(KeyOf(env, a)), env.keys.encode(KeyOf(env, b)))
  }

  /** Two different messages never share an id, unless what is hashed for two of them collides. */
  lemma IdsAreUnique(env: Env, sources: set<Source>)
    requires Sane(env) && OnePerCiphertext(sources)
    ensures UniqueIds(env, sources) <==> !IdClash(env, sources)
  {
    if a, b :| a in sources && b in sources && IdOf(env, a) == IdOf(env, b) && a != b {
      var x, y := env.keys.encode(KeyOf(env, a)), env.keys.encode(KeyOf(env, b));
      if x == y {
        assert env.keys.decode(x) == Some(KeyOf(env, a)) && env.keys.decode(y) == Some(KeyOf(env, b));
        KeyTellsSource(env, a, b);
      } else {
        assert KeysCollide(env, sources, a, b);
      }
    }
  }

  // ---- Order ----

  /** `ORDER BY counter, message_id`: the order of ids as text is the order of their values. */
  predicate AtLeast(env: Env, a: Source, b: Source) {
    EventOf(a).counter > EventOf(b).counter
    || (EventOf(a).counter == EventOf(b).counter && BigEndian(IdOf(env, a)) >= BigEndian(IdOf(env, b)))
  }

  /** With the transcript row as the last resort. */
  predicate Precedes(env: Env, a: Row, b: Row) {
    AtLeast(env, b.source, a.source) && (AtLeast(env, a.source, b.source) ==> a.row < b.row)
  }

  // ---- The pass over the updates of one message ----

  predicate IsUpdate(env: Env, root: Source, s: Source) {
    var r := EventOf(s).relation;
    r.Some? && !r.value.ReplyTo? && r.value.id == IdOf(env, root)
  }

  /** An edit that counts: by the sender of the message itself, and of a text. */
  predicate IsEdit(env: Env, root: Source, s: Source) {
    && IsUpdate(env, root, s) && EventOf(s).relation.value.Replace?
    && s.sender == root.sender && env.utf8(EventOf(root).content)
  }

  predicate IsReaction(env: Env, root: Source, s: Source, who: string, value: string) {
    && IsUpdate(env, root, s) && EventOf(s).relation.value.Reaction?
    && s.sender == who && EventOf(s).relation.value.value == value
  }

  datatype Pass = Pass(seen: set<MessageId>, content: Bytes, edited: bool, reactions: map<(string, string), bool>)

  function StartPass(root: Source): Pass {
    Pass({}, EventOf(root).content, false, map[])
  }

  function Absorb(env: Env, root: Source, f: Pass, s: Source): Pass {
    if IdOf(env, s) in f.seen then f
    else
      var g := f.(seen := f.seen + {IdOf(env, s)});
      if IsEdit(env, root, s) then g.(content := EventOf(s).content, edited := true)
      else if IsUpdate(env, root, s) && EventOf(s).relation.value.Reaction? then
        g.(reactions := g.reactions[(s.sender, EventOf(s).relation.value.value) := EventOf(s).relation.value.add])
      else g
  }

  function AbsorbAll(env: Env, root: Source, rows: seq<Row>): Pass {
    if rows == [] then StartPass(root)
    else Absorb(env, root, AbsorbAll(env, root, rows[..|rows| - 1]), rows[|rows| - 1].source)
  }

  // ---- What the view means ----

  ghost predicate IsLatest(env: Env, sources: set<Source>, w: Source) {
    w in sources && forall s | s in sources :: AtLeast(env, w, s)
  }

  function EditsOf(env: Env, root: Source, sources: set<Source>): set<Source> {
    set s | s in sources && IsEdit(env, root, s)
  }

  function ReactionsOf(env: Env, root: Source, sources: set<Source>, who: string, value: string): set<Source> {
    set s | s in sources && IsReaction(env, root, s, who, value)
  }

  /** The content is that of the latest edit that counts. */
  ghost predicate ContentIs(env: Env, root: Source, sources: set<Source>, content: Bytes, edited: bool) {
    if EditsOf(env, root, sources) == {} then !edited && content == EventOf(root).content
    else edited && exists w :: IsLatest(env, EditsOf(env, root, sources), w) && content == EventOf(w).content
  }

  /** A reaction stands as the sender last said about this value. */
  ghost predicate ReactionIs(env: Env, root: Source, sources: set<Source>, who: string, value: string,
                             reactions: map<(string, string), bool>) {
    if ReactionsOf(env, root, sources, who, value) == {} then (who, value) !in reactions
    else
      && (who, value) in reactions
      && exists w ::
          IsLatest(env, ReactionsOf(env, root, sources, who, value), w)
          && reactions[(who, value)] == EventOf(w).relation.value.add
  }

  ghost predicate ReactionsAre(env: Env, root: Source, sources: set<Source>, reactions: map<(string, string), bool>) {
    forall who, value :: ReactionIs(env, root, sources, who, value, reactions)
  }

  function SourcesOf(rows: seq<Row>): set<Source> {
    set r | r in rows :: r.source
  }

  function Sources(table: set<Row>): set<Source> {
    set r | r in table :: r.source
  }

  lemma SourcesGrow(rows: seq<Row>)
    requires rows != []
    ensures SourcesOf(rows) == SourcesOf(rows[..|rows| - 1]) + {rows[|rows| - 1].source}
  {
    var rest, last := rows[..|rows| - 1], rows[|rows| - 1];
    assert rows == rest + [last];
    assert last in rows;
    forall s | s in SourcesOf(rows) ensures s in SourcesOf(rest) + {last.source} {
      var r :| r in rows && r.source == s;
    }
    forall s | s in SourcesOf(rest) ensures s in SourcesOf(rows) {
      var r :| r in rest && r.source == s;
      assert r in rows;
    }
  }

  lemma AtLeastItself(env: Env, s: Source)
    ensures AtLeast(env, s, s)
  {}

  lemma ContentGrows(env: Env, root: Source, before: set<Source>, s: Source, f: Pass)
    requires ContentIs(env, root, before, f.content, f.edited) && IdOf(env, s) !in f.seen && forall b | b in before ::
             AtLeast(env, s, b)
    ensures var g := Absorb(env, root, f, s); ContentIs(env, root, before + {s}, g.content, g.edited)
  {
    var after := before + {s};
    if IsEdit(env, root, s) {
      AtLeastItself(env, s);
      assert s in EditsOf(env, root, after);
      assert IsLatest(env, EditsOf(env, root, after), s);
    } else {
      assert EditsOf(env, root, after) == EditsOf(env, root, before);
    }
  }

  lemma ReactionGrows(env: Env, root: Source, before: set<Source>, s: Source, f: Pass, who: string, value: string)
    requires ReactionIs(env, root, before, who, value, f.reactions) && IdOf(env, s) !in f.seen
             && forall b | b in before :: AtLeast(env, s, b)
    ensures ReactionIs(env, root, before + {s}, who, value, Absorb(env, root, f, s).reactions)
  {
    var after := before + {s};
    if IsReaction(env, root, s, who, value) {
      AtLeastItself(env, s);
      assert s in ReactionsOf(env, root, after, who, value);
      assert IsLatest(env, ReactionsOf(env, root, after, who, value), s);
    } else {
      assert ReactionsOf(env, root, after, who, value) == ReactionsOf(env, root, before, who, value);
    }
  }

  /** The seen ids are those of these messages, and edit and reactions are the latest among them. */
  ghost predicate Means(env: Env, root: Source, all: set<Source>, f: Pass) {
    && (forall s | s in all :: IdOf(env, s) in f.seen)
    && (forall id | id in f.seen :: exists s :: s in all && IdOf(env, s) == id)
    && ContentIs(env, root, all, f.content, f.edited)
    && ReactionsAre(env, root, all, f.reactions)
  }

  lemma StartMeans(env: Env, root: Source)
    ensures Means(env, root, {}, StartPass(root))
  {
    assert EditsOf(env, root, {}) == {};
    forall who, value ensures ReactionIs(env, root, {}, who, value, map[]) {
      assert ReactionsOf(env, root, {}, who, value) == {};
    }
  }

  lemma MeansGrows(env: Env, root: Source, before: set<Source>, s: Source, f: Pass)
    requires Means(env, root, before, f) && IdOf(env, s) !in f.seen && forall b | b in before :: AtLeast(env, s, b)
    ensures Means(env, root, before + {s}, Absorb(env, root, f, s))
  {
    ContentGrows(env, root, before, s, f);
    forall who, value ensures ReactionIs(env, root, before + {s}, who, value, Absorb(env, root, f, s).reactions) {
      assert ReactionIs(env, root, before, who, value, f.reactions);
      ReactionGrows(env, root, before, s, f, who, value);
    }
    SeenGrows(env, root, before, s, f);
  }

  /** A repeated id is a repeated message. */
  lemma SeenIsKnown(env: Env, root: Source, before: set<Source>, s: Source, f: Pass)
    requires Means(env, root, before, f) && UniqueIds(env, before + {s}) && IdOf(env, s) in f.seen
    ensures before + {s} == before && Absorb(env, root, f, s) == f
  {
    var t :| t in before && IdOf(env, t) == IdOf(env, s);
    assert s in before + {s} && t in before + {s};
  }

  lemma LastIsLatest(env: Env, rows: seq<Row>, s: Source)
    requires rows != [] && s == rows[|rows| - 1].source && forall i, j | 0 <= i < j < |rows| ::
             Precedes(env, rows[i], rows[j])
    ensures forall b | b in SourcesOf(rows[..|rows| - 1]) :: AtLeast(env, s, b)
  {
    var rest := rows[..|rows| - 1];
    forall b | b in SourcesOf(rest) ensures AtLeast(env, s, b) {
      var r :| r in rest && r.source == b;
      var i :| 0 <= i < |rest| && rest[i] == r;
      assert Precedes(env, rows[i], rows[|rows| - 1]);
    }
  }

  /** The pass over sorted rows with its set of seen ids finds exactly the latest edit and reactions. */
  lemma {:induction false} PassMeans(env: Env, root: Source, rows: seq<Row>)
    requires UniqueIds(env, SourcesOf(rows)) && forall i, j | 0 <= i < j < |rows| :: Precedes(env, rows[i], rows[j])
    ensures Means(env, root, SourcesOf(rows), AbsorbAll(env, root, rows))
    decreases |rows|
  {
    if rows == [] {
      StartMeans(env, root);
      assert SourcesOf(rows) == {};
    } else {
      var rest, s := rows[..|rows| - 1], rows[|rows| - 1].source;
      SourcesGrow(rows);
      PassMeans(env, root, rest);
      if IdOf(env, s) in AbsorbAll(env, root, rest).seen {
        SeenIsKnown(env, root, SourcesOf(rest), s, AbsorbAll(env, root, rest));
      } else {
        LastIsLatest(env, rows, s);
        MeansGrows(env, root, SourcesOf(rest), s, AbsorbAll(env, root, rest));
      }
    }
  }

  lemma SeenGrows(env: Env, root: Source, before: set<Source>, s: Source, f: Pass)
    requires (forall b | b in before :: IdOf(env, b) in f.seen) && (forall id | id in f.seen :: exists b ::
                                                                                                 b in before
                                                                                                 && IdOf(env, b) == id)
    ensures var g := Absorb(env, root, f, s);
            && (forall b | b in before + {s} :: IdOf(env, b) in g.seen)
            && (forall id | id in g.seen :: exists b :: b in before + {s} && IdOf(env, b) == id)
  {
    forall id | id in Absorb(env, root, f, s).seen ensures exists b :: b in before + {s} && IdOf(env, b) == id {
      if id in f.seen {
        var b :| b in before && IdOf(env, b) == id;
        assert b in before + {s};
      } else {
        assert s in before + {s};
      }
    }
  }

  // ---- The query has an answer ----

  ghost predicate UniqueRows(table: set<Row>) {
    forall a, b | a in table && b in table && a.row == b.row :: a == b
  }

  lemma PrecedesIsTotal(env: Env, a: Row, b: Row)
    ensures a.row != b.row ==> Precedes(env, a, b) || Precedes(env, b, a)
  {}

  lemma PrecedesIsTransitive(env: Env, a: Row, b: Row, c: Row)
    requires Precedes(env, a, b) && Precedes(env, b, c)
    ensures Precedes(env, a, c)
  {}

  predicate IsFirst(env: Env, rows: set<Row>, r: Row) {
    r in rows && forall x | x in rows :: x == r || Precedes(env, r, x)
  }

  lemma {:induction false} FirstExists(env: Env, rows: set<Row>)
    requires rows != {} && UniqueRows(rows)
    ensures exists r :: IsFirst(env, rows, r)
    decreases |rows|
  {
    var r :| r in rows;
    var rest := rows - {r};
    assert rows == rest + {r};
    if rest == {} {
      assert IsFirst(env, rows, r);
    } else {
      FirstExists(env, rest);
      var m :| IsFirst(env, rest, m);
      PrecedesIsTotal(env, m, r);
      if Precedes(env, m, r) {
        assert IsFirst(env, rows, m);
      } else {
        forall x | x in rows ensures x == r || Precedes(env, r, x) {
          if x != r && x != m {
            PrecedesIsTransitive(env, r, m, x);
          }
        }
        assert IsFirst(env, rows, r);
      }
    }
  }

  function UpdateRows(env: Env, table: set<Row>, root: Source): set<Row> {
    set r | r in table && IsUpdate(env, root, r.source)
  }

  /** The rows of a set in query order. */
  ghost function Ordered(env: Env, rows: set<Row>): seq<Row>
    requires UniqueRows(rows)
    decreases |rows|
  {
    if rows == {} then []
    else
      FirstExists(env, rows);
      var r :| IsFirst(env, rows, r);
      [r] + Ordered(env, rows - {r})
  }

  lemma {:induction false} OrderedIsSorted(env: Env, rows: set<Row>)
    requires UniqueRows(rows)
    ensures var list := Ordered(env, rows);
            && (forall r :: r in list <==> r in rows)
            && (forall i, j | 0 <= i < j < |list| :: Precedes(env, list[i], list[j]))
    decreases |rows|
  {
    if rows != {} {
      FirstExists(env, rows);
      var list := Ordered(env, rows);
      var r := list[0];
      OrderedIsSorted(env, rows - {r});
      assert list[1..] == Ordered(env, rows - {r});
      forall i, j | 0 <= i < j < |list| ensures Precedes(env, list[i], list[j]) {
        assert list[j] == list[1..][j - 1];
        if i > 0 {
          assert list[i] == list[1..][i - 1];
        } else {
          assert list[j] in rows - {r};
        }
      }
      forall x ensures x in list <==> x in rows {
        assert x in list <==> x == r || x in list[1..];
      }
    }
  }

  // ---- The view of one message ----

  datatype View =
    | Unresolved(source: Source)
    | Ignored(target: MessageId)
    | Control(source: Source)
    | Message(content: Bytes, edited: bool, parent: Option<Option<string>>, reactions: map<(string, string), bool>)

  /** `ORDER BY stream_sequence IS NULL, stream_sequence, transcript_id`. */
  predicate Earlier(a: Row, b: Row) {
    if a.sequence.None? then b.sequence.None? && a.row <= b.row
    else
      || b.sequence.None? || a.sequence.value < b.sequence.value
      || (a.sequence.value == b.sequence.value && a.row <= b.row)
  }

  /** `application`: the canonical row of an id. */
  predicate IsCanonical(env: Env, table: set<Row>, id: MessageId, r: Row) {
    r in table && IdOf(env, r.source) == id && forall x | x in table && IdOf(env, x.source) == id :: Earlier(r, x)
  }

  predicate HasId(env: Env, table: set<Row>, id: MessageId) {
    exists r | r in table :: IdOf(env, r.source) == id
  }

  ghost function Application(env: Env, table: set<Row>, id: MessageId): Option<Row> {
    if exists r :: IsCanonical(env, table, id, r) then
      var r :| IsCanonical(env, table, id, r);
      Some(r)
    else None
  }

  /** The text of an edit, reaction or removal itself. */
  function ControlView(env: Env, root: Source, target: Option<Row>): View
    requires EventOf(root).relation.Some?
  {
    if target.None? then Unresolved(root)
    else if !IsRoot(target.value.source)
         || (EventOf(root).relation.value.Replace?
             && (target.value.source.sender != root.sender || !env.utf8(EventOf(target.value.source).content)))
    then Ignored(IdOf(env, target.value.source))
    else Control(root)
  }

  function ParentOf(root: Source, parent: Option<Row>): Option<Option<string>> {
    if EventOf(root).relation.None? then None
    else Some(if parent.Some? && IsRoot(parent.value.source) then Some(parent.value.source.sender) else None)
  }

  ghost function PassOf(env: Env, table: set<Row>, root: Source): Pass
    requires UniqueRows(table)
  {
    AbsorbAll(env, root, Ordered(env, UpdateRows(env, table, root)))
  }

  /** `projected`. */
  ghost function Projected(env: Env, table: set<Row>, root: Source): View
    requires UniqueRows(table)
  {
    var relation := EventOf(root).relation;
    var other := if relation.Some? then Application(env, table, relation.value.id) else None;
    if !IsRoot(root) then ControlView(env, root, other)
    else
      var f := PassOf(env, table, root);
      Message(f.content, f.edited, ParentOf(root, other), f.reactions)
  }

  lemma {:induction false} CanonicalExists(env: Env, table: set<Row>, id: MessageId)
    requires HasId(env, table, id)
    ensures exists r :: IsCanonical(env, table, id, r)
  {
    var rows := set r | r in table && IdOf(env, r.source) == id;
    var x :| x in table && IdOf(env, x.source) == id;
    assert x in rows;
    var r := EarliestOf(rows);
    assert IsCanonical(env, table, id, r);
  }

  lemma {:induction false} EarliestOf(rows: set<Row>) returns (r: Row)
    requires rows != {}
    ensures r in rows && forall x | x in rows :: Earlier(r, x)
    decreases |rows|
  {
    r :| r in rows;
    var rest := rows - {r};
    assert rows == rest + {r};
    if rest != {} {
      var m := EarliestOf(rest);
      if !Earlier(r, m) {
        r := m;
      }
    }
  }

  lemma ApplicationFinds(env: Env, table: set<Row>, id: MessageId)
    ensures var r := Application(env, table, id);
            (r.Some? <==> HasId(env, table, id)) && (r.Some? ==> IsCanonical(env, table, id, r.value))
  {
    if HasId(env, table, id) {
      CanonicalExists(env, table, id);
    }
  }

  // ---- Convergence ----

  lemma LatestIsOne(env: Env, sources: set<Source>, a: Source, b: Source)
    requires UniqueIds(env, sources) && IsLatest(env, sources, a) && IsLatest(env, sources, b)
    ensures a == b
  {
    BigEndianInjective(IdOf(env, a), IdOf(env, b));
  }

  lemma PassIsDetermined(env: Env, root: Source, all: set<Source>, f: Pass, g: Pass)
    requires UniqueIds(env, all)
    requires ContentIs(env, root, all, f.content, f.edited) && ContentIs(env, root, all, g.content, g.edited)
    requires ReactionsAre(env, root, all, f.reactions) && ReactionsAre(env, root, all, g.reactions)
    ensures f.content == g.content && f.edited == g.edited && f.reactions == g.reactions
  {
    var edits := EditsOf(env, root, all);
    if edits != {} {
      var a :| IsLatest(env, edits, a) && f.content == EventOf(a).content;
      var b :| IsLatest(env, edits, b) && g.content == EventOf(b).content;
      LatestIsOne(env, edits, a, b);
    }
    forall k: (string, string) ensures k in f.reactions <==> k in g.reactions {
      assert ReactionIs(env, root, all, k.0, k.1, f.reactions) && ReactionIs(env, root, all, k.0, k.1, g.reactions);
    }
    forall k | k in f.reactions ensures f.reactions[k] == g.reactions[k] {
      assert ReactionIs(env, root, all, k.0, k.1, f.reactions) && ReactionIs(env, root, all, k.0, k.1, g.reactions);
      var reactions := ReactionsOf(env, root, all, k.0, k.1);
      var a :| IsLatest(env, reactions, a) && f.reactions[k] == EventOf(a).relation.value.add;
      var b :| IsLatest(env, reactions, b) && g.reactions[k] == EventOf(b).relation.value.add;
      LatestIsOne(env, reactions, a, b);
    }
    assert f.reactions == g.reactions;
  }

  lemma UpdatesAreSources(env: Env, table: set<Row>, root: Source, s: Source)
    requires UniqueRows(table)
    ensures s in SourcesOf(Ordered(env, UpdateRows(env, table, root))) <==>
          s in Sources(table)
          && IsUpdate(env, root, s)
  {
    var updates := UpdateRows(env, table, root);
    var rows := Ordered(env, updates);
    OrderedIsSorted(env, updates);
    if s in SourcesOf(rows) {
      var r :| r in rows && r.source == s;
      assert r in updates;
    }
    if s in Sources(table) && IsUpdate(env, root, s) {
      var r :| r in table && r.source == s;
      assert r in updates;
      assert r in rows;
    }
  }

  /** What a pass over the updates of a message means in terms of what was received, not of rows. */
  lemma PassOver(env: Env, table: set<Row>, root: Source)
    requires UniqueRows(table) && UniqueIds(env, Sources(table))
    ensures var f := PassOf(env, table, root);
            ContentIs(env, root, Sources(table), f.content, f.edited)
              && ReactionsAre(env, root, Sources(table), f.reactions)
  {
    var rows := Ordered(env, UpdateRows(env, table, root));
    var some, all, f := SourcesOf(rows), Sources(table), PassOf(env, table, root);
    forall s ensures s in some <==> s in all && IsUpdate(env, root, s) {
      UpdatesAreSources(env, table, root, s);
    }
    OrderedIsSorted(env, UpdateRows(env, table, root));
    PassMeans(env, root, rows);
    assert EditsOf(env, root, some) == EditsOf(env, root, all);
    forall who, value ensures ReactionIs(env, root, all, who, value, f.reactions) {
      assert ReactionIs(env, root, some, who, value, f.reactions);
      assert ReactionsOf(env, root, some, who, value) == ReactionsOf(env, root, all, who, value);
    }
  }

  /** Two tables of the same messages find the same message under an id, whatever row they find. */
  lemma ApplicationsAgree(env: Env, a: set<Row>, b: set<Row>, id: MessageId)
    requires Sources(a) == Sources(b) && UniqueIds(env, Sources(a))
    ensures var x, y := Application(env, a, id), Application(env, b, id);
            x.Some? == y.Some? && (x.Some? ==> x.value.source == y.value.source)
  {
    ApplicationFinds(env, a, id);
    ApplicationFinds(env, b, id);
    if HasId(env, a, id) {
      var r :| r in a && IdOf(env, r.source) == id;
      assert r.source in Sources(b);
      var q :| q in b && q.source == r.source;
      assert IdOf(env, q.source) == id;
    }
    if HasId(env, b, id) {
      var r :| r in b && IdOf(env, r.source) == id;
      assert r.source in Sources(a);
      var q :| q in a && q.source == r.source;
      assert IdOf(env, q.source) == id;
    }
    var x, y := Application(env, a, id), Application(env, b, id);
    if x.Some? {
      assert x.value.source in Sources(a) && y.value.source in Sources(a);
    }
  }

  /**
   * Convergence: devices that decrypted the same messages show the same view of every message, in
   * whatever order they arrived, under whatever rows and sequences, and however often.
   */
  lemma ViewsConverge(env: Env, a: set<Row>, b: set<Row>, root: Source)
    requires Sane(env) && UniqueRows(a) && UniqueRows(b) && Sources(a) == Sources(b) && OnePerCiphertext(Sources(a))
    ensures Projected(env, a, root) == Projected(env, b, root) || IdClash(env, Sources(a))
  {
    IdsAreUnique(env, Sources(a));
    if !IdClash(env, Sources(a)) {
      var relation := EventOf(root).relation;
      if relation.Some? {
        ApplicationsAgree(env, a, b, relation.value.id);
      }
      if IsRoot(root) {
        PassesAgree(env, a, b, root);
      }
    }
  }

  lemma PassesAgree(env: Env, a: set<Row>, b: set<Row>, root: Source)
    requires UniqueRows(a) && UniqueRows(b) && Sources(a) == Sources(b) && UniqueIds(env, Sources(a))
    ensures var f, g := PassOf(env, a, root), PassOf(env, b, root);
            f.content == g.content && f.edited == g.edited && f.reactions == g.reactions
  {
    PassOver(env, a, root);
    PassOver(env, b, root);
    PassIsDetermined(env, root, Sources(a), PassOf(env, a, root), PassOf(env, b, root));
  }

  // ---- The conversation ----

  /** `conversation` shows a row when it is the canonical one of its id. */
  ghost predicate Shows(env: Env, table: set<Row>, r: Row) {
    Application(env, table, IdOf(env, r.source)) == Some(r)
  }

  /** Of all the rows of an id exactly one is shown. */
  lemma EveryIdIsShownOnce(env: Env, table: set<Row>, r: Row)
    requires UniqueRows(table) && r in table
    ensures exists q :: q in table && IdOf(env, q.source) == IdOf(env, r.source) && Shows(env, table, q)
    ensures forall p, q | p in table && q in table && IdOf(env, p.source) == IdOf(env, q.source)
            && Shows(env, table, p) && Shows(env, table, q) :: p == q
  {
    ApplicationFinds(env, table, IdOf(env, r.source));
    var q := Application(env, table, IdOf(env, r.source)).value;
    assert Shows(env, table, q);
  }

  // ---- New events win ----

  /** `MAX(counter)` over what this sender has in the group. */
  ghost predicate Highest(table: set<Row>, sender: string, counter: nat) {
    && (forall r | r in table && r.source.sender == sender :: EventOf(r.source).counter <= counter)
    && (counter == 0 || exists r :: r in table && r.source.sender == sender && EventOf(r.source).counter == counter)
  }

  /** `ApplicationEvent::new`: one more than the highest counter, unless it leaves the range of `validate`. */
  function NewEvent(highest: nat, nonce: Bytes, content: Bytes, relation: Option<Relation>): Option<Event> {
    if highest + 1 <= I64_MAX then Some(Event(nonce, highest + 1, content, relation)) else None
  }

  lemma NewIsLatest(env: Env, table: set<Row>, sender: string, highest: nat, e: Event)
    requires Highest(table, sender, highest) && e.counter == highest + 1
    ensures forall s | s in Sources(table) && s.sender == sender :: AtLeast(env, Sent(sender, e), s)
  {
    forall s | s in Sources(table) && s.sender == sender ensures AtLeast(env, Sent(sender, e), s) {
      var r :| r in table && r.source == s;
    }
  }

  /** A sender's new edit replaces its older ones, and its new reaction the older ones with the same value. */
  lemma NewestWins(env: Env, table: set<Row>, root: Source, sender: string, highest: nat, nonce: Bytes, content: Bytes,
                   relation: Relation, r: Row)
    requires Sane(env) && UniqueRows(table + {r}) && OnePerCiphertext(Sources(table + {r}))
    requires Highest(table, sender, highest) && relation.id == IdOf(env, root) && IsRoot(root)
    requires NewEvent(highest, nonce, content, Some(relation)).Some?
    requires r.source == Sent(sender, NewEvent(highest, nonce, content, Some(relation)).value)
    requires !relation.ReplyTo? && (relation.Replace? ==> sender == root.sender && env.utf8(EventOf(root).content))
    ensures var view := Projected(env, table + {r}, root);
            || IdClash(env, Sources(table + {r}))
            || (relation.Replace? && view.edited && view.content == content)
            || (relation.Reaction? && (sender, relation.value) in view.reactions
               && view.reactions[(sender, relation.value)] == relation.add)
  {
    var after, e := table + {r}, NewEvent(highest, nonce, content, Some(relation)).value;
    IdsAreUnique(env, Sources(after));
    if !IdClash(env, Sources(after)) {
      PassOver(env, after, root);
      NewIsLatest(env, table, sender, highest, e);
      assert r in after && r.source in Sources(after);
      assert forall s | s in Sources(after) && s.sender == sender :: AtLeast(env, r.source, s) by {
        forall s | s in Sources(after) && s.sender == sender ensures AtLeast(env, r.source, s) {
          var q :| q in after && q.source == s;
          AtLeastItself(env, r.source);
          if q != r {
            assert s in Sources(table);
          }
        }
      }
      var f := PassOf(env, after, root);
      if relation.Replace? {
        var edits := EditsOf(env, root, Sources(after));
        assert r.source in edits;
        assert IsLatest(env, edits, r.source);
        var w :| IsLatest(env, edits, w) && f.content == EventOf(w).content;
        LatestIsOne(env, edits, w, r.source);
      } else {
        var reactions := ReactionsOf(env, root, Sources(after), sender, relation.value);
        assert r.source in reactions;
        assert IsLatest(env, reactions, r.source);
        assert ReactionIs(env, root, Sources(after), sender, relation.value, f.reactions);
        var w :| IsLatest(env, reactions, w) && f.reactions[(sender, relation.value)] == EventOf(w).relation.value.add;
        LatestIsOne(env, reactions, w, r.source);
      }
    }
  }

  // ---- The index ----

  class ConversationIndex {
    const env: Env
    var table: set<Row>

    constructor (env: Env)
      ensures this.env == env && table == {} && UniqueRows(table)
    {
      this.env := env;
      table := {};
    }

    method IndexApplication(row: nat, sequence: Option<nat>, source: Source)
      requires UniqueRows(table) && forall r | r in table :: r.row != row
      modifies this`table
      ensures UniqueRows(table) && table == old(table) + {Row(row, sequence, source)}
    {
      table := table + {Row(row, sequence, source)};
    }

    method FindApplication(id: MessageId) returns (found: Option<Row>)
      requires UniqueRows(table)
      ensures found == Application(env, table, id)
    {
      found := None;
      var todo := table;
      while todo != {}
        invariant todo <= table
        invariant found.None? ==> forall x | x in table - todo :: IdOf(env, x.source) != id
        invariant found.Some? ==> IsCanonical(env, table - todo, id, found.value)
        decreases todo
      {
        var r :| r in todo;
        assert table - (todo - {r}) == (table - todo) + {r};
        todo := todo - {r};
        if IdOf(env, r.source) == id && (found.None? || !Earlier(found.value, r)) {
          found := Some(r);
        }
      }
      assert table - todo == table;
      ApplicationFinds(env, table, id);
      if found.Some? {
        assert HasId(env, table, id);
        var other := Application(env, table, id).value;
        assert Earlier(other, found.value) && Earlier(found.value, other);
      }
    }

    /** `ORDER BY counter, message_id, transcript_id`. */
    method QueryUpdates(root: Source) returns (rows: seq<Row>)
      requires UniqueRows(table)
      ensures rows == Ordered(env, UpdateRows(env, table, root))
    {
      rows := [];
      var todo := UpdateRows(env, table, root);
      ghost var all := Ordered(env, todo);
      while todo != {}
        invariant todo <= table
        invariant rows + Ordered(env, todo) == all
        decreases todo
      {
        FirstExists(env, todo);
        var r :| IsFirst(env, todo, r);
        FirstIsOne(env, todo, r, Ordered(env, todo)[0]);
        assert Ordered(env, todo) == [r] + Ordered(env, todo - {r});
        todo := todo - {r};
        rows := rows + [r];
      }
    }

    /** The loop of `projected`: the first row of every id counts, in query order. */
    method FoldUpdates(root: Source, rows: seq<Row>)
      returns (content: Bytes, edited: bool, reactions: map<(string, string), bool>)
      ensures var f := AbsorbAll(env, root, rows);
             content == f.content && edited == f.edited
             && reactions == f.reactions
    {
      var seen: set<MessageId> := {};
      content, edited, reactions := EventOf(root).content, false, map[];
      for i := 0 to |rows|
        invariant AbsorbAll(env, root, rows[..i]) == Pass(seen, content, edited, reactions)
      {
        assert rows[..i + 1][..i] == rows[..i];
        var update := rows[i].source;
        var id, relation := IdOf(env, update), EventOf(update).relation;
        if id !in seen {
          seen := seen + {id};
          if IsUpdate(env, root, update) {
            if relation.value.Replace? {
              if update.sender == root.sender && env.utf8(EventOf(root).content) {
                content, edited := EventOf(update).content, true;
              }
            } else {
              reactions := reactions[(update.sender, relation.value.value) := relation.value.add];
            }
          }
        }
      }
      assert rows[..|rows|] == rows;
    }

    method Project(root: Source) returns (view: View)
      requires UniqueRows(table)
      ensures view == Projected(env, table, root)
    {
      var relation := EventOf(root).relation;
      var other := None;
      if relation.Some? {
        other := FindApplication(relation.value.id);
      }
      if !IsRoot(root) {
        return ControlView(env, root, other);
      }
      var rows := QueryUpdates(root);
      var content, edited, reactions := FoldUpdates(root, rows);
      return Message(content, edited, ParentOf(root, other), reactions);
    }
  }

  lemma FirstIsOne(env: Env, rows: set<Row>, a: Row, b: Row)
    requires UniqueRows(rows) && IsFirst(env, rows, a) && IsFirst(env, rows, b)
    ensures a == b
  {}
}
