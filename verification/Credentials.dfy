/** Passkey credentials as Java stores them and as the WebAuthn library sees them. */
module Credentials {
  import opened Sequences
  import opened Wrappers
  import opened Text
  import opened Base64Url

  datatype Credential = Credential(
    name: string, active: bool, credentialId: string, publicKey: string, signCount: nat,
    transports: seq<string>, deviceType: string, backupEligible: bool, backedUp: bool)

  /** The library's form of a stored credential. */
  datatype Built = Built(
    id: seq<Byte>, publicKey: seq<Byte>, transports: seq<string>, signCount: nat,
    backupEligible: bool, backupState: bool)

  function CleanTransports(ts: seq<string>): seq<string> {
    if ts == [] then []
    else
      CleanTransports(ts[..|ts| - 1]) + (
        var cleaned := TrimSpace(ts[|ts| - 1]);
        if cleaned != "" then [cleaned] else [])
  }

  predicate BackupEligible(r: Credential) {
    r.backupEligible || r.backedUp || Lower(TrimSpace(r.deviceType)) == Lower("multiDevice")
  }

  predicate Decodable(r: Credential) {
    Decode(r.credentialId).Some? && Decode(r.publicKey).Some?
  }

  function Build(r: Credential): Built
    requires Decodable(r)
  {
    Built(Decode(r.credentialId).value, Decode(r.publicKey).value, CleanTransports(r.transports),
          r.signCount, BackupEligible(r), r.backedUp)
  }

  function BuiltFrom(rs: seq<Credential>): seq<Built> {
    if rs == [] then []
    else
      BuiltFrom(rs[..|rs| - 1])
      + if Decodable(rs[|rs| - 1]) then [Build(rs[|rs| - 1])] else []
  }

  predicate NotBlank(t: string) { TrimSpace(t) != "" }

  /** The transports that are not blank, trimmed, in order. */
  ghost predicate TransportsKept(ts: seq<string>, out: seq<string>) {
    Filtered(ts, NotBlank, TrimSpace, out)
  }

  lemma TransportsStep(ts: seq<string>, t: string, out: seq<string>)
    requires TransportsKept(ts, out)
    ensures TransportsKept(ts + [t], out + if TrimSpace(t) != "" then [TrimSpace(t)] else [])
  {
    FilteredAppend(ts, NotBlank, TrimSpace, out, t);
    assert out + [] == out;
  }

  lemma {:induction false} CleanTransportsMeans(ts: seq<string>)
    ensures TransportsKept(ts, CleanTransports(ts))
  {
    if ts == [] {
      FilteredNothing(NotBlank, TrimSpace);
    } else {
      var n := |ts| - 1;
      CleanTransportsMeans(ts[..n]);
      TransportsStep(ts[..n], ts[n], CleanTransports(ts[..n]));
      InitLast(ts);
    }
  }

  /** The library's form of a record, field by field. */
  ghost predicate IsBuiltOf(b: Built, r: Credential) {
    && Decode(r.credentialId) == Some(b.id) && Decode(r.publicKey) == Some(b.publicKey)
    && TransportsKept(r.transports, b.transports)
    && b.signCount == r.signCount
    && (b.backupEligible <==>
          r.backupEligible || r.backedUp || SameButCase(TrimSpace(r.deviceType), "multiDevice"))
    && b.backupState == r.backedUp
  }

  /** The records whose id and key decode, in order. */
  ghost predicate DecodableOnes(rs: seq<Credential>, kept: seq<Credential>) {
    Filtered(rs, Decodable, Itself, kept)
  }

  lemma DecodableStep(rs: seq<Credential>, r: Credential, kept: seq<Credential>)
    requires DecodableOnes(rs, kept)
    ensures DecodableOnes(rs + [r], kept + if Decodable(r) then [r] else [])
  {
    FilteredAppend(rs, Decodable, Itself, kept, r);
    assert kept + [] == kept;
  }

  lemma NoneDecodable()
    ensures DecodableOnes([], [])
  {
    FilteredNothing(Decodable, Itself<Credential>);
  }

  /** One built credential for each record whose id and key decode, in order. */
  ghost predicate AreBuiltOf(out: seq<Built>, rs: seq<Credential>) {
    exists kept: seq<Credential> :: DecodableOnes(rs, kept) && Pairwise(out, kept)
  }

  ghost predicate Pairwise(out: seq<Built>, kept: seq<Credential>) {
    |out| == |kept| && forall k :: 0 <= k < |out| ==> IsBuiltOf(out[k], kept[k])
  }

  lemma BuildMeans(r: Credential)
    requires Decodable(r)
    ensures IsBuiltOf(Build(r), r)
  {
    CleanTransportsMeans(r.transports);
    LowerMeans(TrimSpace(r.deviceType), "multiDevice");
  }

  lemma {:induction false} BuiltFromMeans(rs: seq<Credential>)
    ensures AreBuiltOf(BuiltFrom(rs), rs)
  {
    if rs == [] {
      NoneDecodable();
      assert Pairwise([], []);
    } else {
      var n := |rs| - 1;
      BuiltFromMeans(rs[..n]);
      var kept: seq<Credential> :| DecodableOnes(rs[..n], kept) && Pairwise(BuiltFrom(rs[..n]), kept);
      InitLast(rs);
      BuiltStep(rs[..n], rs[n], kept, BuiltFrom(rs[..n]));
    }
  }

  lemma BuiltStep(rs: seq<Credential>, r: Credential, kept: seq<Credential>, out: seq<Built>)
    requires DecodableOnes(rs, kept) && Pairwise(out, kept)
    ensures AreBuiltOf(out + if Decodable(r) then [Build(r)] else [], rs + [r])
  {
    DecodableStep(rs, r, kept);
    if Decodable(r) {
      BuildMeans(r);
      assert Pairwise(out + [Build(r)], kept + [r]);
    } else {
      assert out + [] == out && kept + [] == kept;
    }
  }

  method TransportsOf(ts: seq<string>) returns (out: seq<string>)
    ensures out == CleanTransports(ts) && TransportsKept(ts, out)
  {
    CleanTransportsMeans(ts);
    out := [];
    for i := 0 to |ts|
      invariant out == CleanTransports(ts[..i])
    {
      assert ts[..i + 1][..i] == ts[..i];
      var cleaned := TrimSpace(ts[i]);
      if cleaned != "" {
        out := out + [cleaned];
      }
    }
    assert ts[..|ts|] == ts;
  }

  method WebAuthnCredentials(rs: seq<Credential>) returns (out: seq<Built>)
    ensures out == BuiltFrom(rs) && AreBuiltOf(out, rs)
  {
    BuiltFromMeans(rs);
    out := [];
    for i := 0 to |rs|
      invariant out == BuiltFrom(rs[..i])
    {
      assert rs[..i + 1][..i] == rs[..i];
      var record := rs[i];
      var id := Decode(record.credentialId);
      if id.None? { continue; }
      var publicKey := Decode(record.publicKey);
      if publicKey.None? { continue; }
      var transports := TransportsOf(record.transports);
      out := out + [Built(id.value, publicKey.value, transports, record.signCount,
                          BackupEligible(record), record.backedUp)];
    }
    assert rs[..|rs|] == rs;
  }

  const DEFAULT_NAME := "passkey"

  function NameOf(r: Credential): string {
    if r.name != "" then r.name else DEFAULT_NAME
  }

  function LabelFor(rs: seq<Credential>, id: string): string {
    if rs == [] then DEFAULT_NAME
    else if rs[0].credentialId == id then NameOf(rs[0])
    else LabelFor(rs[1..], id)
  }

  method LabelForCredential(rs: seq<Credential>, id: string) returns (text: string)
    ensures text == LabelFor(rs, id)
    ensures match FirstMatch(rs, id)
            case None => text == "passkey"
            case Some(k) => text == if rs[k].name != "" then rs[k].name else "passkey"
  {
    LabelIsFirstMatch(rs, id);
    for i := 0 to |rs|
      invariant LabelFor(rs, id) == LabelFor(rs[i..], id)
    {
      if rs[i].credentialId == id {
        return if rs[i].name != "" then rs[i].name else DEFAULT_NAME;
      }
    }
    return DEFAULT_NAME;
  }

  /** The stored record that lets a discoverable login pass for the raw id. */
  ghost predicate ActiveMatch(rs: seq<Credential>, rawId: seq<Byte>) {
    exists i :: 0 <= i < |rs| && rs[i].active && rs[i].credentialId == Encode(rawId)
  }

  /** The scan of a discoverable login over the records Java listed. */
  method FindActive(rs: seq<Credential>, rawId: seq<Byte>) returns (found: bool)
    ensures found <==> ActiveMatch(rs, rawId)
  {
    var id := Encode(rawId);
    for i := 0 to |rs|
      invariant forall j :: 0 <= j < i ==> !(rs[j].active && rs[j].credentialId == id)
    {
      if rs[i].active && rs[i].credentialId == id {
        return true;
      }
    }
    return false;
  }

  /** The first record with the id, which is the one whose name is used. */
  function FirstMatch(rs: seq<Credential>, id: string): (k: Option<nat>)
    ensures k.None? ==> forall i :: 0 <= i < |rs| ==> rs[i].credentialId != id
    ensures k.Some? ==>
              && k.value < |rs| && rs[k.value].credentialId == id
              && forall i :: 0 <= i < k.value ==> rs[i].credentialId != id
  {
    if rs == [] then None
    else if rs[0].credentialId == id then Some(0)
    else
      match FirstMatch(rs[1..], id)
      case None => None
      case Some(k) => Some(k + 1)
  }

  lemma {:induction false} LabelIsFirstMatch(rs: seq<Credential>, id: string)
    ensures LabelFor(rs, id) == match FirstMatch(rs, id) { case None => DEFAULT_NAME case Some(k) => NameOf(rs[k]) }
  {
    if rs != [] && rs[0].credentialId != id {
      LabelIsFirstMatch(rs[1..], id);
    }
  }

  lemma {:induction false} BuiltHasSource(rs: seq<Credential>, j: nat) returns (i: nat)
    requires j < |BuiltFrom(rs)|
    ensures i < |rs| && Decodable(rs[i]) && BuiltFrom(rs)[j] == Build(rs[i])
  {
    var n := |rs| - 1;
    if j < |BuiltFrom(rs[..n])| {
      i := BuiltHasSource(rs[..n], j);
    } else {
      i := n;
    }
  }

  /** The id that a built credential is looked up by is its record's own id exactly when
      that id is canonical. */
  lemma {:induction false} ReencodedIffCanonical(r: Credential)
    requires Decodable(r)
    ensures Encode(Build(r).id) == r.credentialId <==> Canonical(r.credentialId)
  {
    CanonicalMeansRoundTrip(r.credentialId);
  }

  /** When identity survives the library's raw ids, for every list of records: encoding
      the id of a built credential again finds the very record it was built from, and so
      that record's label, exactly when the record's id is canonical and no earlier record
      has the same id. */
  lemma {:induction false} BuiltCredentialKeepsLabel(rs: seq<Credential>, j: nat) returns (i: nat)
    requires j < |BuiltFrom(rs)|
    ensures i < |rs| && Decodable(rs[i]) && BuiltFrom(rs)[j] == Build(rs[i])
    ensures var id := Encode(BuiltFrom(rs)[j].id);
            && (FirstMatch(rs, id) == Some(i) <==>
                  && Canonical(rs[i].credentialId)
                  && forall k :: 0 <= k < i ==> rs[k].credentialId != rs[i].credentialId)
            && (FirstMatch(rs, id) == Some(i) ==>
                  LabelFor(rs, id) == if rs[i].name != "" then rs[i].name else "passkey")
  {
    i := BuiltHasSource(rs, j);
    ReencodedIffCanonical(rs[i]);
    LabelIsFirstMatch(rs, Encode(Build(rs[i]).id));
  }

  /** Without canonical ids the label can be another record's: two records whose ids
      differ only in unused bits build the same raw id. */
  lemma NonCanonicalIdsConfuseLabels()
    ensures var a := Credential("a", true, "AA", "", 0, [], "", false, false);
            var b := Credential("b", true, "AB", "", 0, [], "", false, false);
            && a.credentialId != b.credentialId && Decodable(b)
            && FirstMatch([a, b], Encode(Build(b).id)) == Some(0)
            && LabelFor([a, b], Encode(Build(b).id)) == "a" && NameOf(b) == "b"
  {
    DecodeIsLenient();
    assert WithoutLineBreaks("") == "";
    assert Encode([0]) == "AA";
  }

  /** The scan compares text, not raw ids: it succeeds exactly when some active record
      with a canonical id decodes to the raw id presented. */
  lemma {:induction false} MatchIsByRawId(rs: seq<Credential>, rawId: seq<Byte>)
    ensures ActiveMatch(rs, rawId) <==>
            exists i :: 0 <= i < |rs| && rs[i].active
                        && Canonical(rs[i].credentialId) && Decode(rs[i].credentialId) == Some(rawId)
  {
    DecodeUndoesEncode(rawId);
    forall i | 0 <= i < |rs|
      ensures rs[i].credentialId == Encode(rawId) <==>
              Canonical(rs[i].credentialId) && Decode(rs[i].credentialId) == Some(rawId)
    {
      CanonicalMeansRoundTrip(rs[i].credentialId);
    }
  }

  /** One stored record admits at most one raw id. */
  lemma {:induction false} RecordAdmitsOneRawId(r: Credential, a: seq<Byte>, b: seq<Byte>)
    requires ActiveMatch([r], a) && ActiveMatch([r], b)
    ensures a == b
  {
    EncodeIsInjective(a, b);
  }
}
