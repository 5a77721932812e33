/** Signed obligation-gate wrappers in an exports directory: many wrappers, each with its signature, and one
    public key file shared by all (`crates/ao2-cli/src/contract_gate_signing.rs`). */
module GateSigning {
  import opened Wrappers
  import opened Decimals
  import opened Signing

  /** A parsed obligation gate, by its JSON value. */
  type Gate = string

  /** A file whose name marks it as a wrapper; `Foreign` if it does not parse or is of another schema or kind. */
  datatype WrapperFile = Foreign | Wrapper(generatedAtMs: nat, gate: Gate, action: string, operatorRole: string)

  datatype Exports = Exports(
    wrappers: map<string, WrapperFile>, signatures: map<string, Signature<WrapperFile>>, publicKey: Option<PublicKey>)

  const GATE_ACTION := "obligation_gate"

  function WrapperName(ms: nat): string {
    "evidence-export-" + Decimal(ms) + "-obligation-gate.json"
  }

  lemma WrapperNamesDiffer(a: nat, b: nat)
    requires WrapperName(a) == WrapperName(b)
    ensures a == b
  {
    hide Decimal;
    var n := |"evidence-export-"|;
    assert WrapperName(a)[n..][..|Decimal(a)|] == Decimal(a) && WrapperName(b)[n..][..|Decimal(b)|] == Decimal(b);
    assert |Decimal(a)| == |Decimal(b)|;
    DecimalInjective(a, b);
  }

  datatype Emission = Emission(gate: Gate, secret: SecretKey, operatorRole: string, ms: nat)

  function WrapperOf(e: Emission): WrapperFile {
    Wrapper(e.ms, e.gate, GATE_ACTION, e.operatorRole)
  }

  /** What one emit leaves in the directory. */
  function Emitted(d: Exports, e: Emission): Exports {
    var name := WrapperName(e.ms);
    Exports(d.wrappers[name := WrapperOf(e)], d.signatures[name := Signed(e.secret, WrapperOf(e))],
            Some(PublicOf(e.secret)))
  }

  class ExportsDirectory {
    var wrappers: map<string, WrapperFile>
    var signatures: map<string, Signature<WrapperFile>>
    var publicKey: Option<PublicKey>

    /** A directory as an earlier process left it. */
    constructor (d: Exports)
      ensures Shown() == d
    {
      wrappers, signatures, publicKey := d.wrappers, d.signatures, d.publicKey;
    }

    ghost function Shown(): Exports
      reads this
    {
      Exports(wrappers, signatures, publicKey)
    }

    /** Writes the wrapper, then the shared key, then the signature, and checks the signature at once. */
    method Emit(gate: Gate, secret: SecretKey, operatorRole: string, ms: nat) returns (verified: bool)
      modifies this
      ensures Shown() == Emitted(old(Shown()), Emission(gate, secret, operatorRole, ms)) && verified
    {
      hide WrapperName;
      var name := WrapperName(ms);
      wrappers := wrappers[name := Wrapper(ms, gate, GATE_ACTION, operatorRole)];
      publicKey := Some(PublicOf(secret));
      signatures := signatures[name := Signed(secret, wrappers[name])];
      verified := Verifies(signatures[name], publicKey.value, wrappers[name]);
    }
  }

  datatype SigningStatus = WrapperNotFound | SignatureMissing | SignatureInvalid | NotAo2Owned | SignedAndVerified

  predicate Matches(d: Exports, name: string, gate: Gate)
    ensures Matches(d, name, gate) ==> name in d.wrappers && d.wrappers[name].Wrapper?
  {
    name in d.wrappers && d.wrappers[name].Wrapper? && d.wrappers[name].gate == gate
  }

  /** The status of one matched wrapper, under the given key or the directory's own. */
  function Audit(d: Exports, name: string, key: Option<PublicKey>): SigningStatus
    requires name in d.wrappers && d.wrappers[name].Wrapper?
  {
    var w := d.wrappers[name];
    var publicKey := if key.Some? then key else d.publicKey;
    if name !in d.signatures || publicKey.None? then SignatureMissing
    else if !Verifies(d.signatures[name], publicKey.value, w) then SignatureInvalid
    else if w.action != GATE_ACTION || w.operatorRole == "" then NotAo2Owned
    else SignedAndVerified
  }

  /** A status that verification may report: of any matching wrapper of the first directory that has one. */
  ghost predicate MayReport(dirs: seq<Exports>, gate: Gate, key: Option<PublicKey>, status: SigningStatus) {
    if forall i :: 0 <= i < |dirs| ==> NoMatch(dirs[i], gate) then status == WrapperNotFound
    else exists i, name :: 0 <= i < |dirs| && (forall j :: 0 <= j < i ==> NoMatch(dirs[j], gate))
                           && Matches(dirs[i], name, gate) && status == Audit(dirs[i], name, key)
  }

  ghost predicate NoMatch(d: Exports, gate: Gate) {
    forall name :: !Matches(d, name, gate)
  }

  /** A directory listing names every wrapper file, in no particular order. */
  ghost predicate Lists(listing: seq<string>, d: Exports) {
    forall name :: name in d.wrappers ==> name in listing
  }

  method VerifyGateSigning(dirs: seq<Exports>, listings: seq<seq<string>>, gate: Gate, key: Option<PublicKey>)
    returns (status: SigningStatus)
    requires |listings| == |dirs| && forall i :: 0 <= i < |dirs| ==> Lists(listings[i], dirs[i])
    ensures MayReport(dirs, gate, key, status)
  {
    hide Audit;
    for i := 0 to |dirs|
      invariant forall j :: 0 <= j < i ==> NoMatch(dirs[j], gate)
    {
      var names := listings[i];
      for n := 0 to |names|
        invariant forall m :: 0 <= m < n ==> !Matches(dirs[i], names[m], gate)
      {
        if Matches(dirs[i], names[n], gate) {
          status := Audit(dirs[i], names[n], key);
          return;
        }
      }
      assert forall name :: name in names ==> !Matches(dirs[i], name, gate);
    }
    status := WrapperNotFound;
  }

  /** What emitting in turn leaves of a directory. */
  function After(start: Exports, emissions: seq<Emission>): Exports {
    if emissions == [] then start
    else Emitted(After(start, emissions[..|emissions| - 1]), emissions[|emissions| - 1])
  }

  /** The emissions write files of their own: no two at one stamp, none at the name of a file that was there. */
  ghost predicate FreshStamps(start: Exports, emissions: seq<Emission>) {
    && (forall i :: 0 <= i < |emissions| ==> WrapperName(emissions[i].ms) !in start.wrappers)
    && (forall i, j :: 0 <= i < j < |emissions| ==> emissions[i].ms != emissions[j].ms)
  }

  /** What the directory shows of one emission. */
  ghost predicate Holds(d: Exports, e: Emission) {
    var name := WrapperName(e.ms);
    && name in d.wrappers && d.wrappers[name] == WrapperOf(e)
    && name in d.signatures && d.signatures[name] == Signed(e.secret, WrapperOf(e))
  }

  /** Every wrapper was there before, unchanged with its signature, or comes from an emission. */
  ghost predicate HoldsOnly(d: Exports, start: Exports, emissions: seq<Emission>) {
    forall name :: name in d.wrappers && name !in start.wrappers ==>
                     exists i :: 0 <= i < |emissions| && name == WrapperName(emissions[i].ms)
  }

  ghost predicate Keeps(d: Exports, start: Exports) {
    forall name :: name in start.wrappers ==>
                     && name in d.wrappers && d.wrappers[name] == start.wrappers[name]
                     && Lookup(d.signatures, name) == Lookup(start.signatures, name)
  }

  /** With fresh stamps nothing is overwritten but the key file. */
  lemma {:induction false} DirectoryAfter(start: Exports, emissions: seq<Emission>)
    requires FreshStamps(start, emissions)
    ensures Keeps(After(start, emissions), start) && HoldsOnly(After(start, emissions), start, emissions)
    ensures forall i :: 0 <= i < |emissions| ==> Holds(After(start, emissions), emissions[i])
    ensures After(start, emissions).publicKey ==
            if emissions == [] then start.publicKey else Some(PublicOf(emissions[|emissions| - 1].secret))
  {
    hide *;
    if emissions == [] {
      NothingEmitted(start);
    } else {
      var n := |emissions| - 1;
      AfterLast(start, emissions);
      EarlierStamps(start, emissions);
      DirectoryAfter(start, emissions[..n]);
      forall i | 0 <= i < n ensures Holds(After(start, emissions), emissions[i]) {
        assert emissions[..n][i] == emissions[i];
        StampsDiffer(start, emissions, i, n);
        EmitKeeps(After(start, emissions[..n]), emissions[n], emissions[i]);
      }
      EmitAdds(After(start, emissions[..n]), start, emissions[..n], emissions[n]);
      assert emissions == emissions[..n] + [emissions[n]];
    }
  }

  lemma NothingEmitted(start: Exports)
    ensures Keeps(After(start, []), start) && HoldsOnly(After(start, []), start, []) && After(start, []) == start
  {}

  lemma EarlierStamps(start: Exports, emissions: seq<Emission>)
    requires FreshStamps(start, emissions) && emissions != []
    ensures FreshStamps(start, emissions[..|emissions| - 1])
    ensures WrapperName(emissions[|emissions| - 1].ms) !in start.wrappers
  {
    hide WrapperName;
  }

  lemma AfterLast(start: Exports, emissions: seq<Emission>)
    requires emissions != []
    ensures After(start, emissions) == Emitted(After(start, emissions[..|emissions| - 1]), emissions[|emissions| - 1])
  {}

  lemma StampsDiffer(start: Exports, emissions: seq<Emission>, i: nat, j: nat)
    requires FreshStamps(start, emissions) && i < j < |emissions|
    ensures emissions[i].ms != emissions[j].ms
  {
    hide WrapperName;
  }

  lemma EmitKeeps(d: Exports, e: Emission, other: Emission)
    requires Holds(d, other) && other.ms != e.ms
    ensures Holds(Emitted(d, e), other)
  {
    hide WrapperName;
    if WrapperName(e.ms) == WrapperName(other.ms) {
      WrapperNamesDiffer(e.ms, other.ms);
    }
  }

  lemma EmitAdds(d: Exports, start: Exports, emissions: seq<Emission>, e: Emission)
    requires Keeps(d, start) && HoldsOnly(d, start, emissions) && WrapperName(e.ms) !in start.wrappers
    ensures Holds(Emitted(d, e), e) && HoldsOnly(Emitted(d, e), start, emissions + [e]) && Keeps(Emitted(d, e), start)
    ensures Emitted(d, e).publicKey == Some(PublicOf(e.secret))
  {
    hide WrapperName;
    var all := emissions + [e];
    forall name | name in Emitted(d, e).wrappers && name !in start.wrappers
      ensures exists i :: 0 <= i < |all| && name == WrapperName(all[i].ms)
    {
      if name in d.wrappers {
        var i :| 0 <= i < |emissions| && name == WrapperName(emissions[i].ms);
        assert all[i] == emissions[i];
      } else {
        assert name == WrapperName(all[|emissions|].ms);
      }
    }
  }

  /** Every emission of this gate used the key of the last emission of all, and named an operator role. */
  ghost predicate OneKey(emissions: seq<Emission>, gate: Gate)
    requires emissions != []
  {
    forall i :: 0 <= i < |emissions| && emissions[i].gate == gate ==>
                  emissions[i].secret == emissions[|emissions| - 1].secret && emissions[i].operatorRole != ""
  }

  /** Every matching wrapper audits as signed and verified, under the given key or the directory's. */
  ghost predicate AllVerify(d: Exports, gate: Gate, key: Option<PublicKey>) {
    forall name :: Matches(d, name, gate) ==> Audit(d, name, key) == SignedAndVerified
  }

  /** A gate that was emitted verifies, in whatever order the directory is listed, whatever was there and whatever
      was emitted before or since, exactly when all its emissions used the key that was used last, and its wrappers
      that were there before verify under that key too: the public key file is shared, so one later emit of any
      gate with another key takes the verdict away. */
  lemma {:induction false} EmittedGateVerifies(before: seq<Exports>, start: Exports, emissions: seq<Emission>,
                                               rest: seq<Exports>, gate: Gate)
    requires FreshStamps(start, emissions) && exists i :: 0 <= i < |emissions| && emissions[i].gate == gate
    requires forall i :: 0 <= i < |before| ==> NoMatch(before[i], gate)
    ensures (forall status :: MayReport(before + [After(start, emissions)] + rest, gate, None, status) ==>
                                status == SignedAndVerified)
            <==> OneKey(emissions, gate) && AllVerify(start, gate, Some(PublicOf(emissions[|emissions| - 1].secret)))
  {
    hide WrapperName, Audit, After, MayReport, Matches, OneKey, NoMatch, FreshStamps;
    var some :| 0 <= some < |emissions| && emissions[some].gate == gate;
    AuditEmission(start, emissions, some);
    AuditsDecide(start, emissions, gate);
    var d := After(start, emissions);
    ReportedHere(before, d, rest, gate, WrapperName(emissions[some].ms));
    forall name | Matches(d, name, gate) ensures MayReport(before + [d] + rest, gate, None, Audit(d, name, None)) {}
  }

  lemma {:induction false} AuditsDecide(start: Exports, emissions: seq<Emission>, gate: Gate)
    requires FreshStamps(start, emissions) && emissions != []
    ensures AllVerify(After(start, emissions), gate, None) <==>
            OneKey(emissions, gate) && AllVerify(start, gate, Some(PublicOf(emissions[|emissions| - 1].secret)))
  {
    hide WrapperName, Audit, After, Matches, FreshStamps;
    var d, key := After(start, emissions), Some(PublicOf(emissions[|emissions| - 1].secret));
    if AllVerify(d, gate, None) {
      forall i | 0 <= i < |emissions| && emissions[i].gate == gate
        ensures emissions[i].secret == emissions[|emissions| - 1].secret && emissions[i].operatorRole != ""
      {
        AuditEmission(start, emissions, i);
        assert Audit(d, WrapperName(emissions[i].ms), None) == SignedAndVerified;
      }
      forall name | Matches(start, name, gate) ensures Audit(start, name, key) == SignedAndVerified {
        AuditOld(start, emissions, name, gate);
      }
    }
    if OneKey(emissions, gate) && AllVerify(start, gate, key) {
      forall name | Matches(d, name, gate) ensures Audit(d, name, None) == SignedAndVerified {
        MatchIsKnown(start, emissions, name, gate);
        if Matches(start, name, gate) {
          AuditOld(start, emissions, name, gate);
        } else {
          var i :| 0 <= i < |emissions| && name == WrapperName(emissions[i].ms) && emissions[i].gate == gate;
          AuditEmission(start, emissions, i);
        }
      }
    }
  }

  lemma {:induction false} MatchIsKnown(start: Exports, emissions: seq<Emission>, name: string, gate: Gate)
    requires FreshStamps(start, emissions) && Matches(After(start, emissions), name, gate)
    ensures Matches(start, name, gate) ||
            exists i :: 0 <= i < |emissions| && name == WrapperName(emissions[i].ms) && emissions[i].gate == gate
  {
    hide WrapperName, After;
    DirectoryAfter(start, emissions);
    if name !in start.wrappers {
      var i :| 0 <= i < |emissions| && name == WrapperName(emissions[i].ms);
      assert Holds(After(start, emissions), emissions[i]);
    }
  }

  /** A wrapper from before is audited as it was, but under the key of the last emission. */
  lemma {:induction false} AuditOld(start: Exports, emissions: seq<Emission>, name: string, gate: Gate)
    requires FreshStamps(start, emissions) && emissions != [] && Matches(start, name, gate)
    ensures Matches(After(start, emissions), name, gate)
    ensures Audit(After(start, emissions), name, None) ==
            Audit(start, name, Some(PublicOf(emissions[|emissions| - 1].secret)))
  {
    hide WrapperName, After, HoldsOnly, Holds;
    DirectoryAfter(start, emissions);
  }

  lemma {:induction false} AuditEmission(start: Exports, emissions: seq<Emission>, i: nat)
    requires FreshStamps(start, emissions) && i < |emissions|
    ensures Matches(After(start, emissions), WrapperName(emissions[i].ms), emissions[i].gate)
    ensures Audit(After(start, emissions), WrapperName(emissions[i].ms), None) == SignedAndVerified <==>
            emissions[i].secret == emissions[|emissions| - 1].secret && emissions[i].operatorRole != ""
  {
    hide WrapperName, After, HoldsOnly, Keeps;
    DirectoryAfter(start, emissions);
    assert Holds(After(start, emissions), emissions[i]);
  }

  /** Where the first match lies in this directory, the reports are the audits of its matching wrappers. */
  lemma ReportedHere(before: seq<Exports>, d: Exports, rest: seq<Exports>, gate: Gate, match0: string)
    requires forall i :: 0 <= i < |before| ==> NoMatch(before[i], gate)
    requires Matches(d, match0, gate)
    ensures forall status :: MayReport(before + [d] + rest, gate, None, status) <==>
              exists name :: Matches(d, name, gate) && status == Audit(d, name, None)
  {
    hide Audit;
    var dirs := before + [d] + rest;
    assert dirs[|before|] == d && !NoMatch(d, gate);
    assert forall j :: 0 <= j < |before| ==> dirs[j] == before[j];
  }

  /** Each status of a matched wrapper, exactly. */
  lemma AuditTells(d: Exports, name: string, key: Option<PublicKey>)
    requires name in d.wrappers && d.wrappers[name].Wrapper?
    ensures var w, status := d.wrappers[name], Audit(d, name, key);
            var used := if key.Some? then key else d.publicKey;
            var signed := name in d.signatures && used.Some?;
            var genuine := signed && d.signatures[name].message == w
                           && PublicOf(d.signatures[name].signer) == used.value;
            var owned := w.action == "obligation_gate" && w.operatorRole != "";
            && status != WrapperNotFound
            && (status.SignatureMissing? <==> !signed)
            && (status.SignatureInvalid? <==> signed && !genuine)
            && (status.NotAo2Owned? <==> genuine && !owned)
            && (status.SignedAndVerified? <==> genuine && owned)
  {}

  /** A wrapper is reported missing exactly when no probed directory has a matching one. */
  lemma NotFoundTells(dirs: seq<Exports>, gate: Gate, key: Option<PublicKey>)
    ensures MayReport(dirs, gate, key, WrapperNotFound) <==>
            forall i, name :: 0 <= i < |dirs| && name in dirs[i].wrappers && dirs[i].wrappers[name].Wrapper? ==>
                                dirs[i].wrappers[name].gate != gate
  {
    hide Audit;
    forall d: Exports, name | Matches(d, name, gate) ensures Audit(d, name, key) != WrapperNotFound {
      AuditTells(d, name, key);
    }
    forall i | 0 <= i < |dirs|
      ensures NoMatch(dirs[i], gate) <==>
              forall name :: name in dirs[i].wrappers && dirs[i].wrappers[name].Wrapper? ==>
                               dirs[i].wrappers[name].gate != gate
    {
      assert forall name :: Matches(dirs[i], name, gate) <==>
               name in dirs[i].wrappers && dirs[i].wrappers[name].Wrapper? && dirs[i].wrappers[name].gate == gate;
    }
  }

  /** A gate whose shared key was replaced by a later emit is reported invalid, not missing. */
  lemma {:induction false} OvertakenGate(start: Exports, emissions: seq<Emission>, i: nat)
    requires FreshStamps(start, emissions) && i < |emissions|
    requires emissions[i].secret != emissions[|emissions| - 1].secret
    ensures Matches(After(start, emissions), WrapperName(emissions[i].ms), emissions[i].gate)
    ensures Audit(After(start, emissions), WrapperName(emissions[i].ms), None) == SignatureInvalid
  {
    AuditEmission(start, emissions, i);
    DirectoryAfter(start, emissions);
    assert Holds(After(start, emissions), emissions[i]);
    hide After, WrapperName, Audit, HoldsOnly, Keeps;
    AuditTells(After(start, emissions), WrapperName(emissions[i].ms), None);
  }

  /** The name that an emit chooses passes the filter that verification applies to file names. */
  lemma WrapperNameFound(ms: nat)
    ensures var name := WrapperName(ms);
            && "evidence-export-" <= name
            && |name| > 21 && name[|name| - 21..] == "-obligation-gate.json"
  {
    hide Decimal;
  }
}
