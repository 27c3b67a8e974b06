/** Re-encryption of the item text under protected search: the digests are made from what readers
    see, so encrypting stored text changes no row's coverage. */
module SearchReencryption {
  import opened Records
  import opened Uuids
  import Reencryption
  import SearchTokens

  /** The scheme reads text the way the text column's readers do. */
  ghost predicate ReadsColumn(s: SearchTokens.Scheme, p: Reencryption.Pgp) {
    forall raw: string :: Some(s.view(raw)) == Reencryption.TextStep(p).view(Some(raw))
  }

  function EncryptedRow(p: Reencryption.Pgp, row: SearchTokens.Row, salt: nat): SearchTokens.Row {
    row.(raw := Reencryption.TextEncrypted(p, Some(row.raw), salt).value)
  }

  /** One committed batch of the text column: the chosen rows are encrypted. */
  function EncryptRows(p: Reencryption.Pgp, db: SearchTokens.Db, ids: set<Uuid>, salts: Uuid -> nat)
    : SearchTokens.Db
  {
    db.(rows := map id | id in db.rows ::
      if id in ids then EncryptedRow(p, db.rows[id], salts(id)) else db.rows[id])
  }

  ghost predicate AllPending(p: Reencryption.Pgp, db: SearchTokens.Db, ids: set<Uuid>) {
    forall id :: id in ids ==>
      id in db.rows && Reencryption.TextStep(p).pending(Some(db.rows[id].raw))
  }

  /** Encrypting one pending text is a rewrite that the coverage theorems permit. */
  lemma EncryptionIsPermitted(s: SearchTokens.Scheme, p: Reencryption.Pgp, st: SearchTokens.State,
                              id: Uuid, salt: nat)
    requires Reencryption.Inverts(p) && ReadsColumn(s, p)
    requires id in st.db.rows && Reencryption.TextStep(p).pending(Some(st.db.rows[id].raw))
    ensures SearchTokens.Permitted(st, s,
              SearchTokens.Rewrite(id, EncryptedRow(p, st.db.rows[id], salt).raw))
  {
    var raw := st.db.rows[id].raw;
    var c := Reencryption.TextStep(p);
    Reencryption.TextStepSound(p);
    assert c.view(c.encrypted(Some(raw), salt)) == c.view(Some(raw));
  }

  lemma SameDigests(s: SearchTokens.Scheme, p: Reencryption.Pgp, db: SearchTokens.Db,
                    ids: set<Uuid>, salts: Uuid -> nat, id: Uuid)
    requires Reencryption.Inverts(p) && ReadsColumn(s, p) && AllPending(p, db, ids) && id in db.rows
    ensures var db' := EncryptRows(p, db, ids, salts);
            SearchTokens.Digests(s, db'.rows[id]) == SearchTokens.Digests(s, db.rows[id])
            && (SearchTokens.Covered(db', s, id) <==> SearchTokens.Covered(db, s, id))
  {
    if id in ids {
      var raw := db.rows[id].raw;
      var c := Reencryption.TextStep(p);
      Reencryption.TextStepSound(p);
      assert c.view(c.encrypted(Some(raw), salts(id))) == c.view(Some(raw));
    }
  }

  /** A whole batch of re-encryption, whatever rows it takes, neither spoils nor repairs the
      invariant of the backfill, and leaves the index exactly as complete as it was. */
  lemma BatchKeepsCoverage(s: SearchTokens.Scheme, p: Reencryption.Pgp, st: SearchTokens.State,
                           ids: set<Uuid>, salts: Uuid -> nat)
    requires Reencryption.Inverts(p) && ReadsColumn(s, p) && AllPending(p, st.db, ids)
    ensures var after := st.(db := EncryptRows(p, st.db, ids, salts));
            (SearchTokens.Inv(after, s) <==> SearchTokens.Inv(st, s))
            && (SearchTokens.AllCovered(after.db, s) <==> SearchTokens.AllCovered(st.db, s))
  {
    var db' := EncryptRows(p, st.db, ids, salts);
    forall id | id in st.db.rows
      ensures SearchTokens.Covered(db', s, id) <==> SearchTokens.Covered(st.db, s, id)
    {
      SameDigests(s, p, st.db, ids, salts, id);
    }
  }
}
