/** The hash-chained ledger and what its head commits to. */
module Ledgers {
  import opened Common
  import opened JoinedText
  import opened Numerals

  const GENESIS: string := Repeat('0', 64)
  const BAR: char := '|'

  datatype Entry = Entry(index: nat, merchant: string, entityType: string, entityId: string, eventType: string,
                         payload: string, prevHash: string, entryHash: string, createdAt: string)

  function Fields(e: Entry): (fields: seq<string>)
    ensures |fields| == 8
  {
    [e.prevHash, Str(e.index), e.merchant, e.entityType, e.entityId, e.eventType, e.payload, e.createdAt]
  }

  /** The text that is hashed. */
  function Canonical(e: Entry): string {
    Join(Fields(e), BAR)
  }

  /** Written out: each field in its place, bars between. */
  lemma CanonicalIs(e: Entry)
    ensures Canonical(e) ==
            e.prevHash + "|" + (Str(e.index) + "|" + (e.merchant + "|" + (e.entityType + "|" +
            (e.entityId + "|" + (e.eventType + "|" + (e.payload + "|" + e.createdAt))))))
  {
    hide Join;
    var f := Fields(e);
    JoinOne(f[7], BAR);
    JoinMore(f[6], f[7..], BAR);
    JoinMore(f[5], f[6..], BAR);
    JoinMore(f[4], f[5..], BAR);
    JoinMore(f[3], f[4..], BAR);
    JoinMore(f[2], f[3..], BAR);
    JoinMore(f[1], f[2..], BAR);
    JoinMore(f[0], f[1..], BAR);
    assert "|" == [BAR];
    assert forall i :: 0 <= i < 7 ==> [f[i]] + f[i + 1..] == f[i..];
    assert f[0..] == f && f[7..] == [f[7]];
  }

  type Hash = string -> string

  // ---- chains --------------------------------------------------------------------------

  function Head(entries: seq<Entry>): string {
    if entries == [] then GENESIS else entries[|entries| - 1].entryHash
  }

  predicate Links(e: Entry, i: nat, prev: string, hash: Hash) {
    e.index == i + 1 && e.prevHash == prev && e.entryHash == hash(Canonical(e))
  }

  ghost predicate IsChain(entries: seq<Entry>, hash: Hash) {
    forall i :: 0 <= i < |entries| ==> Links(entries[i], i, Head(entries[..i]), hash)
  }

  datatype Reason = WrongIndex | WrongPrevious | WrongHash

  datatype Verification = Valid(count: nat, head: string) | Tampered(index: nat, reason: Reason)

  /** The first thing wrong with an entry at its place: its index, else its link back, else its own hash. */
  ghost predicate Faulty(e: Entry, i: nat, prev: string, hash: Hash, reason: Reason) {
    match reason
    case WrongIndex => e.index != i + 1
    case WrongPrevious => e.index == i + 1 && e.prevHash != prev
    case WrongHash => e.index == i + 1 && e.prevHash == prev && e.entryHash != hash(Canonical(e))
  }

  /** Valid exactly for chains; otherwise the first entry that does not link, and why. */
  method VerifyEntries(entries: seq<Entry>, hash: Hash) returns (v: Verification)
    ensures v.Valid? <==> IsChain(entries, hash)
    ensures v.Valid? ==> v == Valid(|entries|, Head(entries))
    ensures v.Tampered? ==>
              exists i: nat :: i < |entries| && IsChain(entries[..i], hash) &&
                  Faulty(entries[i], i, Head(entries[..i]), hash, v.reason) && v.index == entries[i].index
  {
    hide Canonical;
    var expectedPrev, expectedIndex := GENESIS, 1;
    for i := 0 to |entries|
      invariant expectedIndex == i + 1 && expectedPrev == Head(entries[..i])
      invariant IsChain(entries[..i], hash)
    {
      var e := entries[i];
      FrontsOfFront(entries, i);
      if e.index != expectedIndex {
        return Tampered(e.index, WrongIndex);
      }
      if e.prevHash != expectedPrev {
        return Tampered(e.index, WrongPrevious);
      }
      var recomputed := hash(Canonical(e));
      if e.entryHash != recomputed {
        return Tampered(e.index, WrongHash);
      }
      ChainGrows(entries[..i], e, hash);
      assert entries[..i + 1] == entries[..i] + [e];
      expectedPrev := e.entryHash;
      expectedIndex := expectedIndex + 1;
    }
    assert entries[..|entries|] == entries;
    v := Valid(|entries|, expectedPrev);
  }

  lemma FrontsOfFront(entries: seq<Entry>, n: nat)
    requires n <= |entries|
    ensures forall i :: 0 <= i <= n ==> entries[..n][..i] == entries[..i]
  {
  }

  lemma ChainGrows(entries: seq<Entry>, e: Entry, hash: Hash)
    requires IsChain(entries, hash) && Links(e, |entries|, Head(entries), hash)
    ensures IsChain(entries + [e], hash) && Head(entries + [e]) == e.entryHash
  {
    hide Links;
    var longer := entries + [e];
    forall i | 0 <= i < |longer| ensures Links(longer[i], i, Head(longer[..i]), hash) {
      if i < |entries| {
        assert longer[..i] == entries[..i];
      } else {
        assert longer[..i] == entries;
      }
    }
  }

  // ---- appending ------------------------------------------------------------------------

  function ChainOf(rows: seq<Entry>, merchant: string): seq<Entry> {
    if rows == [] then []
    else
      var n := |rows| - 1;
      ChainOf(rows[..n], merchant) + (if rows[n].merchant == merchant then [rows[n]] else [])
  }

  /** The merchant's row with the greatest index. */
  function Latest(rows: seq<Entry>, merchant: string): Option<Entry> {
    if rows == [] then None
    else
      var n := |rows| - 1;
      var earlier := Latest(rows[..n], merchant);
      if rows[n].merchant == merchant && (earlier.None? || rows[n].index >= earlier.value.index) then Some(rows[n])
      else earlier
  }

  lemma {:induction false} LatestIsLast(rows: seq<Entry>, merchant: string, hash: Hash)
    requires IsChain(ChainOf(rows, merchant), hash)
    ensures var chain := ChainOf(rows, merchant);
            if chain == [] then Latest(rows, merchant) == None
            else Latest(rows, merchant) == Some(chain[|chain| - 1]) && chain[|chain| - 1].index == |chain|
  {
    hide Canonical;
    if rows != [] {
      var n := |rows| - 1;
      var before, chain := ChainOf(rows[..n], merchant), ChainOf(rows, merchant);
      if rows[n].merchant == merchant {
        assert chain[..|before|] == before;
        FrontOfChain(chain, |before|, hash);
        assert Links(chain[|before|], |before|, Head(before), hash);
      } else {
        assert chain == before;
      }
      LatestIsLast(rows[..n], merchant, hash);
    }
  }

  /** Verification cannot see a missing tail: every front of a chain is a chain. */
  lemma FrontOfChain(entries: seq<Entry>, n: nat, hash: Hash)
    requires IsChain(entries, hash) && n <= |entries|
    ensures IsChain(entries[..n], hash)
  {
    hide Links;
    forall i | 0 <= i < n ensures Links(entries[..n][i], i, Head(entries[..n][..i]), hash) {
      assert entries[..n][..i] == entries[..i];
    }
  }

  lemma AppendKeepsChain(rows: seq<Entry>, e: Entry, hash: Hash, merchant: string)
    requires IsChain(ChainOf(rows, merchant), hash)
    requires e.merchant == merchant ==> Links(e, |ChainOf(rows, merchant)|, Head(ChainOf(rows, merchant)), hash)
    ensures ChainOf(rows + [e], merchant) == ChainOf(rows, merchant) + if e.merchant == merchant then [e] else []
    ensures IsChain(ChainOf(rows + [e], merchant), hash)
  {
    hide Links, IsChain;
    assert (rows + [e])[..|rows|] == rows;
    if e.merchant == merchant {
      ChainGrows(ChainOf(rows, merchant), e, hash);
    } else {
      assert ChainOf(rows + [e], merchant) == ChainOf(rows, merchant);
    }
  }

  class LedgerService {
    var rows: seq<Entry>
    const hash: Hash

    /** Every tenant's rows form a chain of their own. */
    ghost predicate Valid()
      reads this
    {
      forall merchant :: IsChain(ChainOf(rows, merchant), hash)
    }

    constructor (hash: Hash)
      ensures Valid() && rows == [] && this.hash == hash
    {
      this.hash := hash;
      rows := [];
    }

    method Append(merchant: string, entityType: string, entityId: string, eventType: string, payload: string,
                  now: string)
      returns (entry: Entry)
      requires Valid()
      modifies this
      ensures Valid() && rows == old(rows) + [entry]
      ensures ChainOf(rows, merchant) == old(ChainOf(rows, merchant)) + [entry]
      ensures forall other :: other != merchant ==> ChainOf(rows, other) == old(ChainOf(rows, other))
      ensures entry == Entry(|old(ChainOf(rows, merchant))| + 1, merchant, entityType, entityId, eventType, payload,
                             Head(old(ChainOf(rows, merchant))), entry.entryHash, now)
    {
      hide Canonical, ChainOf, IsChain, Latest;
      ghost var before := rows;
      LatestIsLast(rows, merchant, hash);
      var latest := Latest(rows, merchant);
      var nextIndex := if latest.Some? then latest.value.index + 1 else 1;
      var prevHash := if latest.Some? then latest.value.entryHash else GENESIS;
      var draft := Entry(nextIndex, merchant, entityType, entityId, eventType, payload, prevHash, "", now);
      HashIsNotHashed(draft, hash(Canonical(draft)));
      entry := draft.(entryHash := hash(Canonical(draft)));
      rows := rows + [entry];
      forall other ensures IsChain(ChainOf(rows, other), hash) {
        AppendKeepsChain(before, entry, hash, other);
      }
      AppendKeepsChain(before, entry, hash, merchant);
      forall other | other != merchant ensures ChainOf(rows, other) == ChainOf(before, other) {
        AppendKeepsChain(before, entry, hash, other);
      }
    }
  }

  lemma HashIsNotHashed(e: Entry, h: string)
    ensures Canonical(e.(entryHash := h)) == Canonical(e)
  {
    assert Fields(e.(entryHash := h)) == Fields(e);
  }

  // ---- what the head commits to -------------------------------------------------------------

  /** The chains themselves show the digest to be unsound: two different texts in them with one digest, or one
      whose digest is the genesis constant. */
  ghost predicate Collide(a: seq<Entry>, b: seq<Entry>, hash: Hash) {
    || (exists i, j ::
          0 <= i < |a| && 0 <= j < |b| && Canonical(a[i]) != Canonical(b[j])
          && hash(Canonical(a[i])) == hash(Canonical(b[j])))
    || (exists i :: 0 <= i < |a| && hash(Canonical(a[i])) == GENESIS)
    || exists j :: 0 <= j < |b| && hash(Canonical(b[j])) == GENESIS
  }

  lemma FrontsCollide(a: seq<Entry>, b: seq<Entry>, m: nat, n: nat, hash: Hash)
    requires m <= |a| && n <= |b| && Collide(a[..m], b[..n], hash)
    ensures Collide(a, b, hash)
  {
    hide Canonical;
    if i, j :|
      0 <= i < m && 0 <= j < n && Canonical(a[..m][i]) != Canonical(b[..n][j])
      && hash(Canonical(a[..m][i])) == hash(Canonical(b[..n][j])) {
      assert a[..m][i] == a[i] && b[..n][j] == b[j];
    } else if i :| 0 <= i < m && hash(Canonical(a[..m][i])) == GENESIS {
      assert a[..m][i] == a[i];
    } else {
      var j :| 0 <= j < n && hash(Canonical(b[..n][j])) == GENESIS;
      assert b[..n][j] == b[j];
    }
  }

  ghost predicate Hexadecimal(hash: Hash) {
    forall x :: BAR !in hash(x)
  }

  /** A chain begins at as many zeros as a digest has hexadecimal digits. */
  lemma GenesisIsPlain()
    ensures |GENESIS| == 64 && forall i :: 0 <= i < 64 ==> GENESIS[i] == '0'
    ensures BAR !in GENESIS
  {
  }

  lemma HeadIsPlain(entries: seq<Entry>, hash: Hash)
    requires IsChain(entries, hash) && Hexadecimal(hash)
    ensures BAR !in Head(entries)
  {
    GenesisIsPlain();
    if entries != [] {
      assert Links(entries[|entries| - 1], |entries| - 1, Head(entries[..|entries| - 1]), hash);
    }
  }

  /** Equal texts agree on the previous hash and on the index, whatever the other fields contain. */
  lemma HeadersAgree(a: Entry, b: Entry)
    requires Canonical(a) == Canonical(b) && BAR !in a.prevHash && BAR !in b.prevHash
    ensures a.prevHash == b.prevHash && a.index == b.index
  {
    var fa, fb := Fields(a), Fields(b);
    FirstField(fa[0], Join(fa[1..], BAR), fb[0], Join(fb[1..], BAR), BAR);
    NumeralsArePlain(a.index);
    NumeralsArePlain(b.index);
    assert fa[1..][0] == Str(a.index) && fb[1..][0] == Str(b.index);
    FirstField(Str(a.index), Join(fa[1..][1..], BAR), Str(b.index), Join(fb[1..][1..], BAR), BAR);
    ValueOfStr(a.index);
    ValueOfStr(b.index);
  }

  lemma NumeralsArePlain(n: nat)
    ensures BAR !in Str(n)
  {
  }

  /** One head, one history: two chains that verify and end in the same hash hashed the same texts in the same
      order, unless they collide. */
  lemma {:induction false} HeadCommitsToHistory(a: seq<Entry>, b: seq<Entry>, hash: Hash)
    requires IsChain(a, hash) && IsChain(b, hash) && Hexadecimal(hash) && Head(a) == Head(b)
    ensures Collide(a, b, hash) || (|a| == |b| && forall i :: 0 <= i < |a| ==> Canonical(a[i]) == Canonical(b[i]))
    decreases |a|
  {
    hide Canonical, Collide, IsChain, Links, Hexadecimal;
    if a == [] || b == [] {
      OnlyGenesisIsEmpty(a, b, hash);
    } else {
      var m, n := |a| - 1, |b| - 1;
      LastLinks(a, hash);
      LastLinks(b, hash);
      SameDigest(a, b, hash);
      HeadIsPlain(a[..m], hash);
      HeadIsPlain(b[..n], hash);
      if !Collide(a, b, hash) {
        HeadersAgree(a[m], b[n]);
        HeadCommitsToHistory(a[..m], b[..n], hash);
        if Collide(a[..m], b[..n], hash) {
          FrontsCollide(a, b, m, n, hash);
        }
        forall i | 0 <= i < |a| ensures Canonical(a[i]) == Canonical(b[i]) {
          assert i < m ==> a[i] == a[..m][i] && b[i] == b[..m][i];
        }
      }
    }
  }

  lemma SameDigest(a: seq<Entry>, b: seq<Entry>, hash: Hash)
    requires a != [] && b != [] && hash(Canonical(a[|a| - 1])) == hash(Canonical(b[|b| - 1]))
    ensures Collide(a, b, hash) || Canonical(a[|a| - 1]) == Canonical(b[|b| - 1])
  {
    hide Canonical;
  }

  lemma OnlyGenesisIsEmpty(a: seq<Entry>, b: seq<Entry>, hash: Hash)
    requires IsChain(a, hash) && IsChain(b, hash) && Head(a) == Head(b) && (a == [] || b == [])
    ensures Collide(a, b, hash) || (a == [] && b == [])
  {
    hide Canonical;
    if a != [] {
      LastLinks(a, hash);
    }
    if b != [] {
      LastLinks(b, hash);
    }
  }

  lemma LastLinks(entries: seq<Entry>, hash: Hash)
    requires IsChain(entries, hash) && entries != []
    ensures var n := |entries| - 1;
            && IsChain(entries[..n], hash) && entries[n].index == n + 1 && entries[n].prevHash == Head(entries[..n])
            && Head(entries) == hash(Canonical(entries[n]))
  {
    var n := |entries| - 1;
    FrontOfChain(entries, n, hash);
    assert Links(entries[n], n, Head(entries[..n]), hash);
  }

  // ---- fields and texts -----------------------------------------------------------------------

  /** Nothing in the entry's own text could be taken for a separator. */
  ghost predicate PlainEntry(e: Entry) {
    BAR !in e.merchant && BAR !in e.entityType && BAR !in e.entityId && BAR !in e.eventType && BAR !in e.payload
  }

  ghost predicate PlainHeader(e: Entry) {
    BAR !in e.prevHash && BAR !in e.createdAt
  }

  /** What the text must not leave open: everything the chain does not recompute. */
  predicate SameContent(a: Entry, b: Entry) {
    a.(entryHash := "") == b.(entryHash := "")
  }

  lemma PlainFields(e: Entry)
    requires PlainHeader(e) && PlainEntry(e)
    ensures Plain(Fields(e), BAR)
  {
    NumeralsArePlain(e.index);
  }

  lemma SameFields(a: Entry, b: Entry)
    requires Fields(a) == Fields(b)
    ensures SameContent(a, b)
  {
    assert Fields(a)[0] == Fields(b)[0] && Fields(a)[1] == Fields(b)[1] && Fields(a)[2] == Fields(b)[2] &&
           Fields(a)[3] == Fields(b)[3];
    assert Fields(a)[4] == Fields(b)[4] && Fields(a)[5] == Fields(b)[5] && Fields(a)[6] == Fields(b)[6] &&
           Fields(a)[7] == Fields(b)[7];
    ValueOfStr(a.index);
    ValueOfStr(b.index);
  }

  /** The text determines the entry exactly when no field of the entry contains a bar. */
  lemma TextDeterminesEntryIff(e: Entry)
    requires PlainHeader(e)
    ensures PlainEntry(e) <==> forall other :: Canonical(other) == Canonical(e) ==> SameContent(other, e)
  {
    if PlainEntry(e) {
      forall other | Canonical(other) == Canonical(e) ensures SameContent(other, e) {
        PlainFields(e);
        PlainFieldsAreDetermined(Fields(e), Fields(other), BAR);
        SameFields(other, e);
      }
    } else {
      var other := AnotherWithTheSameText(e);
      assert Canonical(other) == Canonical(e) && !SameContent(other, e);
    }
  }

  lemma AnotherWithTheSameText(e: Entry) returns (other: Entry)
    requires !PlainEntry(e)
    ensures Canonical(other) == Canonical(e) && !SameContent(other, e)
  {
    hide Join;
    var p, i := e.prevHash, Str(e.index);
    if BAR in e.merchant {
      var x, y := SplitAt(e.merchant, BAR);
      other := e.(merchant := x, entityType := y + [BAR] + e.entityType);
      SeparatorMoves([p, i], x, y, e.entityType, [e.entityId, e.eventType, e.payload, e.createdAt], BAR);
      assert Fields(e) == [p, i] + [x + [BAR] + y, e.entityType] + [e.entityId, e.eventType, e.payload, e.createdAt];
      assert Fields(other) == [p, i] + [x, y + [BAR] + e.entityType] +
             [e.entityId, e.eventType, e.payload, e.createdAt];
    } else if BAR in e.entityType {
      var x, y := SplitAt(e.entityType, BAR);
      other := e.(entityType := x, entityId := y + [BAR] + e.entityId);
      SeparatorMoves([p, i, e.merchant], x, y, e.entityId, [e.eventType, e.payload, e.createdAt], BAR);
      assert Fields(e) == [p, i, e.merchant] + [x + [BAR] + y, e.entityId] + [e.eventType, e.payload, e.createdAt];
      assert Fields(other) == [p, i, e.merchant] + [x, y + [BAR] + e.entityId] + [e.eventType, e.payload, e.createdAt];
    } else if BAR in e.entityId {
      var x, y := SplitAt(e.entityId, BAR);
      other := e.(entityId := x, eventType := y + [BAR] + e.eventType);
      SeparatorMoves([p, i, e.merchant, e.entityType], x, y, e.eventType, [e.payload, e.createdAt], BAR);
      assert Fields(e) == [p, i, e.merchant, e.entityType] + [x + [BAR] + y, e.eventType] + [e.payload, e.createdAt];
      assert Fields(other) == [p, i, e.merchant, e.entityType] + [x, y + [BAR] + e.eventType] +
             [e.payload, e.createdAt];
    } else if BAR in e.eventType {
      var x, y := SplitAt(e.eventType, BAR);
      other := e.(eventType := x, payload := y + [BAR] + e.payload);
      SeparatorMoves([p, i, e.merchant, e.entityType, e.entityId], x, y, e.payload, [e.createdAt], BAR);
      assert Fields(e) == [p, i, e.merchant, e.entityType, e.entityId] + [x + [BAR] + y, e.payload] + [e.createdAt];
      assert Fields(other) == [p, i, e.merchant, e.entityType, e.entityId] + [x, y + [BAR] + e.payload] + [e.createdAt];
    } else {
      var x, y := SplitAt(e.payload, BAR);
      other := e.(eventType := e.eventType + [BAR] + x, payload := y);
      SeparatorMoves([p, i, e.merchant, e.entityType, e.entityId], e.eventType, x, y, [e.createdAt], BAR);
      assert e.payload == x + [BAR] + y;
      assert Fields(e) == [p, i, e.merchant, e.entityType, e.entityId] + [e.eventType, x + [BAR] + y] + [e.createdAt];
      assert Fields(other) == [p, i, e.merchant, e.entityType, e.entityId] + [e.eventType + [BAR] + x, y] +
             [e.createdAt];
    }
  }

  /** So a recorded head fixes every field of every entry, if the entries of one of the chains are plain. */
  lemma PlainHistoryIsFixed(a: seq<Entry>, b: seq<Entry>, hash: Hash)
    requires IsChain(a, hash) && IsChain(b, hash) && Hexadecimal(hash) && Head(a) == Head(b)
    requires forall i :: 0 <= i < |a| ==> PlainEntry(a[i]) && BAR !in a[i].createdAt
    ensures Collide(a, b, hash) || a == b
  {
    HeadCommitsToHistory(a, b, hash);
    if !Collide(a, b, hash) {
      forall i | 0 <= i < |a| ensures a[i] == b[i] {
        FrontOfChain(a, i, hash);
        HeadIsPlain(a[..i], hash);
        assert Links(a[i], i, Head(a[..i]), hash) && Links(b[i], i, Head(b[..i]), hash);
        TextDeterminesEntryIff(a[i]);
        assert SameContent(b[i], a[i]);
      }
    }
  }
}
