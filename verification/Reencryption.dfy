/** Encrypting legacy columns in place: each committed batch rewrites plaintext values only, so
    every reader sees the same text at every moment, however often the job is cut off and rerun. */
module Reencryption {
  import opened Basics
  import opened Records

  const PREFIX := "enc:pgcrypto:v1:"
  const JSON_KEY := "_uam_encrypted_json_v1"

  /** pgcrypto with a fixed key: encryption draws a fresh salt, decryption inverts it. */
  datatype Pgp = Pgp(encrypt: (string, nat) -> string, decrypt: string -> string)

  ghost predicate Inverts(p: Pgp) {
    forall text: string, salt: nat :: p.decrypt(p.encrypt(text, salt)) == text
  }

  /** One column's conversion: which stored values are pending, what the update stores for one,
      and what a reader gets out of a stored value. */
  datatype Column<!V(!new), !W(!new)> = Column(pending: V -> bool, encrypted: (V, nat) -> V, view: V -> W)

  /** Encrypting settles a value and does not change what readers see. */
  ghost predicate Sound<V(!new), W(!new)>(c: Column<V, W>) {
    forall v: V, salt: nat :: c.pending(v) ==>
      !c.pending(c.encrypted(v, salt)) && c.view(c.encrypted(v, salt)) == c.view(v)
  }

  // ---------------------------------------------------------------- text columns

  function TextView(p: Pgp, v: Option<string>): Option<string> {
    if v.None? then None
    else if StartsWith(v.value, PREFIX) then Some(p.decrypt(v.value[|PREFIX|..]))
    else v
  }

  predicate TextPending(v: Option<string>) {
    v.Some? && !StartsWith(v.value, PREFIX)
  }

  function TextEncrypted(p: Pgp, v: Option<string>, salt: nat): Option<string> {
    if v.None? then None else Some(PREFIX + p.encrypt(v.value, salt))
  }

  /** `_text_step`. */
  function TextStep(p: Pgp): Column<Option<string>, Option<string>> {
    Column(v => TextPending(v), (v, salt) => TextEncrypted(p, v, salt), v => TextView(p, v))
  }

  lemma TextStepSound(p: Pgp)
    requires Inverts(p)
    ensures Sound(TextStep(p))
  {
    var c := TextStep(p);
    forall v: Option<string>, salt: nat | c.pending(v)
      ensures !c.pending(c.encrypted(v, salt)) && c.view(c.encrypted(v, salt)) == c.view(v)
    {
      var e := PREFIX + p.encrypt(v.value, salt);
      assert e[|PREFIX|..] == p.encrypt(v.value, salt);
      assert p.decrypt(p.encrypt(v.value, salt)) == v.value;
    }
  }

  // ---------------------------------------------------------------- json columns

  /** jsonb values as far as the condition looks into them. */
  datatype Json = Null | Text(s: string) | Other(repr: string) | Object(fields: map<string, Json>)

  /** SQL's three-valued NOT (key present AND nothing else AND left(value, n) = prefix): it is
      NULL, hence not pending, when the key's value is JSON null. */
  predicate JsonPending(v: Option<Json>) {
    v.Some? &&
    !(v.value.Object? && JSON_KEY in v.value.fields && v.value.fields.Keys == {JSON_KEY}
      && (v.value.fields[JSON_KEY].Null?
          || (v.value.fields[JSON_KEY].Text? && StartsWith(v.value.fields[JSON_KEY].s, PREFIX))))
  }

  /** A wrapped value is one object with the prefixed ciphertext under the key. */
  predicate Wrapped(v: Json) {
    v.Object? && v.fields.Keys == {JSON_KEY} && v.fields[JSON_KEY].Text?
    && StartsWith(v.fields[JSON_KEY].s, PREFIX)
  }

  /** `show` and `parse` stand for the casts between jsonb and text. */
  datatype Codec = Codec(show: Json -> string, parse: string -> Json)

  ghost predicate Parses(k: Codec) {
    forall j: Json :: k.parse(k.show(j)) == j
  }

  function JsonView(p: Pgp, k: Codec, v: Option<Json>): Option<Json> {
    if v.Some? && Wrapped(v.value)
    then Some(k.parse(p.decrypt(v.value.fields[JSON_KEY].s[|PREFIX|..])))
    else v
  }

  function JsonEncrypted(p: Pgp, k: Codec, v: Option<Json>, salt: nat): Option<Json> {
    if v.None? then None
    else Some(Object(map[JSON_KEY := Text(PREFIX + p.encrypt(k.show(v.value), salt))]))
  }

  /** `_json_step`. */
  function JsonStep(p: Pgp, k: Codec): Column<Option<Json>, Option<Json>> {
    Column(v => JsonPending(v), (v, salt) => JsonEncrypted(p, k, v, salt), v => JsonView(p, k, v))
  }

  lemma JsonStepSound(p: Pgp, k: Codec)
    requires Inverts(p) && Parses(k)
    ensures Sound(JsonStep(p, k))
  {
    var c := JsonStep(p, k);
    forall v: Option<Json>, salt: nat | c.pending(v)
      ensures !c.pending(c.encrypted(v, salt)) && c.view(c.encrypted(v, salt)) == c.view(v)
    {
      var cipher := p.encrypt(k.show(v.value), salt);
      var e := Object(map[JSON_KEY := Text(PREFIX + cipher)]);
      assert e.fields.Keys == {JSON_KEY};
      assert (PREFIX + cipher)[|PREFIX|..] == cipher;
      assert p.decrypt(cipher) == k.show(v.value);
    }
  }

  /** An object holding JSON null under the reserved key is stored unencrypted yet never pending:
      the comparison is NULL, so no run ever converts it. */
  lemma NullUnderReservedKeyIsSkipped(v: Json)
    requires v.Object? && v.fields == map[JSON_KEY := Null]
    ensures !JsonPending(Some(v)) && !Wrapped(v)
  {}

  /** Apart from that one value, a stored json value is pending exactly when it is not wrapped. */
  lemma PendingIffNotWrapped(v: Json)
    ensures JsonPending(Some(v)) <==> !Wrapped(v) && v != Object(map[JSON_KEY := Null])
  {
    if v.Object? && v.fields.Keys == {JSON_KEY} {
      assert v.fields == map[JSON_KEY := v.fields[JSON_KEY]];
    }
  }

  // ---------------------------------------------------------------- batches

  function Pending<V(!new), W(!new)>(c: Column<V, W>, table: map<nat, V>): set<nat> {
    set row | row in table && c.pending(table[row])
  }

  /** The update: exactly the chosen rows are rewritten. */
  function Rewrite<V(!new), W(!new)>(c: Column<V, W>, table: map<nat, V>, rows: set<nat>, salt: nat)
    : map<nat, V>
  {
    map row | row in table ::
      if row in rows then c.encrypted(table[row], salt + row) else table[row]
  }

  ghost predicate SameViews<V(!new), W(!new)>(c: Column<V, W>, a: map<nat, V>, b: map<nat, V>) {
    a.Keys == b.Keys && forall row :: row in a ==> c.view(b[row]) == c.view(a[row])
  }

  /** One committed batch preserves every reader's view, settles exactly the chosen rows and
      leaves the others as stored. */
  lemma BatchIsInvisible<V(!new), W(!new)>(c: Column<V, W>, table: map<nat, V>, rows: set<nat>, salt: nat)
    requires Sound(c) && rows <= Pending(c, table)
    ensures SameViews(c, table, Rewrite(c, table, rows, salt))
    ensures Pending(c, Rewrite(c, table, rows, salt)) == Pending(c, table) - rows
    ensures forall row :: row in table && row !in rows ==> Rewrite(c, table, rows, salt)[row] == table[row]
  {}

  /** A batch of some run: its rows were selected as pending. */
  datatype Batch = Batch(rows: set<nat>, salt: nat)

  function Apply<V(!new), W(!new)>(c: Column<V, W>, table: map<nat, V>, batches: seq<Batch>): map<nat, V>
    decreases |batches|
  {
    if batches == [] then table
    else Apply(c, Rewrite(c, table, batches[0].rows, batches[0].salt), batches[1..])
  }

  ghost predicate SelectsPending<V(!new), W(!new)>(c: Column<V, W>, table: map<nat, V>, batches: seq<Batch>)
    decreases |batches|
  {
    batches != [] ==>
      batches[0].rows <= Pending(c, table)
      && SelectsPending(c, Rewrite(c, table, batches[0].rows, batches[0].salt), batches[1..])
  }

  /** Over any sequence of committed batches, of one run, of interrupted runs or of repeated runs,
      every reader's view stays what it was. */
  lemma {:induction false} RunsAreInvisible<V(!new), W(!new)>(c: Column<V, W>, table: map<nat, V>,
                                                             batches: seq<Batch>)
    requires Sound(c) && SelectsPending(c, table, batches)
    ensures SameViews(c, table, Apply(c, table, batches))
    ensures Pending(c, Apply(c, table, batches)) <= Pending(c, table)
    decreases |batches|
  {
    if batches != [] {
      BatchIsInvisible(c, table, batches[0].rows, batches[0].salt);
      RunsAreInvisible(c, Rewrite(c, table, batches[0].rows, batches[0].salt), batches[1..]);
    }
  }

  /** A row that is not pending is in no later batch and stays as it is stored. */
  lemma {:induction false} SettledRowsStay<V(!new), W(!new)>(c: Column<V, W>, table: map<nat, V>,
                                                            batches: seq<Batch>, row: nat, j: nat)
    requires Sound(c) && SelectsPending(c, table, batches)
    requires row in table && !c.pending(table[row]) && j < |batches|
    ensures row !in batches[j].rows
    ensures row in Apply(c, table, batches) && Apply(c, table, batches)[row] == table[row]
    decreases |batches|
  {
    var next := Rewrite(c, table, batches[0].rows, batches[0].salt);
    assert row !in batches[0].rows;
    assert next[row] == table[row];
    if |batches| > 1 {
      if j > 0 { SettledRowsStay(c, next, batches[1..], row, j - 1); }
      else { SettledRowsStay(c, next, batches[1..], row, 0); }
    }
  }

  /** No row is encrypted twice: a row rewritten by one batch is in no later batch. */
  lemma {:induction false} NeverEncryptedTwice<V(!new), W(!new)>(c: Column<V, W>, table: map<nat, V>,
                                                                batches: seq<Batch>, row: nat,
                                                                i: nat, j: nat)
    requires Sound(c) && SelectsPending(c, table, batches)
    requires i < j < |batches| && row in batches[i].rows
    ensures row !in batches[j].rows
    decreases |batches|
  {
    var next := Rewrite(c, table, batches[0].rows, batches[0].salt);
    if i > 0 {
      NeverEncryptedTwice(c, next, batches[1..], row, i - 1, j - 1);
    } else {
      BatchIsInvisible(c, table, batches[0].rows, batches[0].salt);
      assert row in next && row !in Pending(c, next);
      SettledRowsStay(c, next, batches[1..], row, j - 1);
    }
  }

  // ---------------------------------------------------------------- what is stored

  /** A committed batch of a text column stores, for each chosen row, the prefix and the ciphertext
      of the text that was there. */
  lemma TextRowsAreCiphertext(p: Pgp, table: map<nat, Option<string>>, rows: set<nat>, salt: nat, row: nat)
    requires rows <= Pending(TextStep(p), table) && row in rows
    ensures row in table && table[row].Some?
    ensures Rewrite(TextStep(p), table, rows, salt)[row] ==
            Some("enc:pgcrypto:v1:" + p.encrypt(table[row].value, salt + row))
  {}

  /** A batch of a json column stores one object with the ciphertext of the shown value. */
  lemma JsonRowsAreCiphertext(p: Pgp, k: Codec, table: map<nat, Option<Json>>, rows: set<nat>,
                              salt: nat, row: nat)
    requires rows <= Pending(JsonStep(p, k), table) && row in rows
    ensures row in table && table[row].Some?
    ensures Rewrite(JsonStep(p, k), table, rows, salt)[row] ==
            Some(Object(map["_uam_encrypted_json_v1" :=
                   Text("enc:pgcrypto:v1:" + p.encrypt(k.show(table[row].value), salt + row))]))
  {}

  /** Once nothing is pending, every stored text begins with the prefix. */
  lemma NoTextIsClear(p: Pgp, table: map<nat, Option<string>>)
    ensures Pending(TextStep(p), table) == {} <==>
            forall row :: row in table && table[row].Some? ==> "enc:pgcrypto:v1:" <= table[row].value
  {
    var c := TextStep(p);
    forall row | row in table && table[row].Some? && Pending(c, table) == {}
      ensures "enc:pgcrypto:v1:" <= table[row].value
    {
      assert row !in Pending(c, table);
    }
  }

  /** And every stored json value is the wrapping object, or holds null under the reserved key. */
  lemma NoJsonIsClear(p: Pgp, k: Codec, table: map<nat, Option<Json>>)
    requires Pending(JsonStep(p, k), table) == {}
    ensures forall row :: row in table && table[row].Some? ==>
              var v := table[row].value;
              v == Object(map["_uam_encrypted_json_v1" := Null])
              || (v.Object? && v.fields.Keys == {"_uam_encrypted_json_v1"}
                  && v.fields["_uam_encrypted_json_v1"].Text?
                  && "enc:pgcrypto:v1:" <= v.fields["_uam_encrypted_json_v1"].s)
  {
    forall row | row in table && table[row].Some?
      ensures !JsonPending(table[row])
    {
      assert row !in Pending(JsonStep(p, k), table);
      PendingIffNotWrapped(table[row].value);
    }
    forall row | row in table && table[row].Some? { PendingIffNotWrapped(table[row].value); }
  }

  // ---------------------------------------------------------------- the job

  predicate IsLowest(s: set<nat>, m: nat) {
    m in s && forall x :: x in s ==> m <= x
  }

  lemma {:induction false} LowestExists(s: set<nat>)
    requires s != {}
    ensures exists m :: IsLowest(s, m)
    decreases |s|
  {
    var a :| a in s;
    var t := s - {a};
    assert s == t + {a};
    if t == {} {
      assert IsLowest(s, a);
    } else {
      LowestExists(t);
      var m :| IsLowest(t, m);
      assert IsLowest(s, if a <= m then a else m);
    }
  }

  /** The n lowest members. */
  function Lowest(s: set<nat>, n: nat): set<nat>
    decreases |s|
  {
    if n == 0 || s == {} then {}
    else
      LowestExists(s);
      var m :| IsLowest(s, m);
      {m} + Lowest(s - {m}, n - 1)
  }

  predicate FirstRows(low: set<nat>, s: set<nat>) {
    low <= s && forall a, b :: a in low && b in s && b !in low ==> a < b
  }

  lemma FirstRowsPlus(low: set<nat>, s: set<nat>, m: nat)
    requires IsLowest(s, m) && FirstRows(low, s - {m})
    ensures FirstRows({m} + low, s) && |{m} + low| == 1 + |low|
  {
    assert m !in low;
  }

  lemma LowestStep(s: set<nat>, n: nat) returns (m: nat)
    requires n > 0 && s != {}
    ensures IsLowest(s, m) && Lowest(s, n) == {m} + Lowest(s - {m}, n - 1)
  {
    LowestExists(s);
    m :| IsLowest(s, m);
  }

  lemma {:induction false} LowestFacts(s: set<nat>, n: nat)
    ensures FirstRows(Lowest(s, n), s)
    ensures |Lowest(s, n)| == if |s| < n then |s| else n
    decreases |s|
  {
    if n > 0 && s != {} {
      var m := LowestStep(s, n);
      assert s == (s - {m}) + {m};
      LowestFacts(s - {m}, n - 1);
      FirstRowsPlus(Lowest(s - {m}, n - 1), s, m);
    }
  }

  /** `order by ctid limit n for update skip locked`: the first n pending rows not locked. */
  method SelectBatch(pending: set<nat>, locked: set<nat>, limit: nat) returns (rows: set<nat>)
    ensures FirstRows(rows, pending - locked)
    ensures |rows| == if |pending - locked| < limit then |pending - locked| else limit
  {
    LowestFacts(pending - locked, limit);
    rows := Lowest(pending - locked, limit);
  }

  /** The batch loop of one column. `locked` says which rows other transactions hold at each batch.
      Views never change; the count of migrated rows plus the rows still pending is what was
      pending; what is left pending was locked at the last batch, so with nothing locked the loop
      ends with zero pending. */
  method ReencryptColumn<V(!new), W(!new)>(c: Column<V, W>, table: map<nat, V>, batchSize: nat,
                                           locked: nat -> set<nat>)
    returns (after: map<nat, V>, migrated: nat, ghost batches: seq<Batch>)
    requires Sound(c) && 1 <= batchSize <= 10000
    ensures SelectsPending(c, table, batches) && after == Apply(c, table, batches)
    ensures SameViews(c, table, after)
    ensures migrated + |Pending(c, after)| == |Pending(c, table)|
    ensures exists n: nat :: Pending(c, after) <= locked(n)
    ensures (forall n: nat :: locked(n) == {}) ==>
              Pending(c, after) == {} && migrated == |Pending(c, table)|
  {
    after, migrated, batches := table, 0, [];
    var round := 0;
    while true
      invariant SelectsPending(c, table, batches) && after == Apply(c, table, batches)
      invariant SameViews(c, table, after)
      invariant migrated + |Pending(c, after)| == |Pending(c, table)|
      decreases |Pending(c, after)|
    {
      var pending := Pending(c, after);
      var rows := SelectBatch(pending, locked(round), batchSize);
      BatchIsInvisible(c, after, rows, migrated);
      Commit(c, table, batches, Batch(rows, migrated));
      DisjointSize(pending, rows);
      batches := batches + [Batch(rows, migrated)];
      after := Rewrite(c, after, rows, migrated);
      migrated := migrated + |rows|;
      if |rows| < batchSize {
        SubsetSizeEq(rows, pending - locked(round));
        assert Pending(c, after) <= locked(round);
        break;
      }
      round := round + 1;
    }
  }

  lemma DisjointSize(a: set<nat>, b: set<nat>)
    requires b <= a
    ensures |a - b| == |a| - |b|
  {
    assert a == (a - b) + b;
  }

  lemma {:induction false} SubsetSizeEq(a: set<nat>, b: set<nat>)
    requires a <= b && |a| == |b|
    ensures a == b
  {
    DisjointSize(b, a);
    assert |b - a| == 0;
  }

  /** A committed batch extends the history. */
  lemma {:induction false} Commit<V(!new), W(!new)>(c: Column<V, W>, table: map<nat, V>,
                                                   batches: seq<Batch>, b: Batch)
    requires SelectsPending(c, table, batches) && b.rows <= Pending(c, Apply(c, table, batches))
    ensures SelectsPending(c, table, batches + [b])
    ensures Apply(c, table, batches + [b]) == Rewrite(c, Apply(c, table, batches), b.rows, b.salt)
    decreases |batches|
  {
    if batches == [] {
      assert (batches + [b])[1..] == [];
    } else {
      assert (batches + [b])[1..] == batches[1..] + [b];
      Commit(c, Rewrite(c, table, batches[0].rows, batches[0].salt), batches[1..], b);
    }
  }
}
