/** The recovery scan that setup and the session list run over every session directory. */
module SessionRecovery {
  import opened Basics
  import opened SessionLifecycle
  import opened S = SetupTransaction

  /** One entry of the sessions directory, in name order. */
  datatype Entry = Entry(name: string, isDirectory: bool, session: Session)

  datatype Listed = Listed(name: string, assessment: Assessment)

  /** Only a session past its grant with a live-browser manifest is judged by the browser configuration. */
  predicate NeedsEvidence(x: Session) {
    && x.status.Some? && !IsTerminal(x.status.value) && !BeforeGrant(x.status.value)
    && x.manifest.Some? && x.manifest.value.transport == Edge
  }

  function Assessments(entries: seq<Entry>, evidence: Evidence): seq<Listed> {
    if entries == [] then []
    else
      var e := entries[|entries| - 1];
      Assessments(entries[..|entries| - 1], evidence)
      + if e.isDirectory then [Listed(e.name, Assess(e.session, evidence))] else []
  }

  /**
   `scanSessionRecovery` lists every session directory in order. The browser configuration is read at most once,
   and only if none is given and some session needs it.
   */
  method ScanSessionRecovery(entries: seq<Entry>, given: Option<Evidence>, onDisk: Evidence)
    returns (assessments: seq<Listed>, lookups: nat)
    ensures assessments == Assessments(entries, if given.Some? then given.value else onDisk)
    ensures lookups <= 1
    ensures lookups == 1 <==> given.None? && exists e | e in entries :: e.isDirectory && NeedsEvidence(e.session)
  {
    ghost var evidence := if given.Some? then given.value else onDisk;
    assessments, lookups := [], 0;
    var cached := given;
    for i := 0 to |entries|
      invariant assessments == Assessments(entries[..i], evidence)
      invariant lookups == 0 ==> cached == given
      invariant lookups > 0 ==> lookups == 1 && given.None? && cached == Some(onDisk)
      invariant lookups == 1 <==>
                given.None? && exists e | e in entries[..i] :: e.isDirectory && NeedsEvidence(e.session)
    {
      var entry := entries[i];
      assert entries[..i + 1] == entries[..i] + [entry] && entries[..i + 1][..i] == entries[..i];
      if entry.isDirectory {
        if NeedsEvidence(entry.session) {
          if cached.None? { cached, lookups := Some(onDisk), lookups + 1; }
          assessments := assessments + [Listed(entry.name, Assess(entry.session, cached.value))];
        } else {
          EvidenceMattersOnlyWhenNeeded(entry.session, Missing, evidence);
          assessments := assessments + [Listed(entry.name, Assess(entry.session, Missing))];
        }
      }
    }
    assert entries[..|entries|] == entries;
  }

  lemma EvidenceMattersOnlyWhenNeeded(x: Session, a: Evidence, b: Evidence)
    requires !NeedsEvidence(x)
    ensures Assess(x, a) == Assess(x, b)
  {
  }

  /** `liveBrowserSetupBlockers` */
  function Blockers(assessments: seq<Listed>): seq<Listed> {
    if assessments == [] then []
    else
      var last := assessments[|assessments| - 1];
      Blockers(assessments[..|assessments| - 1]) + if Blocks(last.assessment) then [last] else []
  }

  /** Setup is ready exactly when every session directory leaves it free, whatever the browser evidence says. */
  lemma {:induction false} ReadyExactlyWhenFree(entries: seq<Entry>, evidence: Evidence)
    ensures Blockers(Assessments(entries, evidence)) == [] <==>
            forall e | e in entries && e.isDirectory :: LeavesSetupFree(e.session)
  {
    if entries == [] {
    } else {
      var (front, e) := (entries[..|entries| - 1], entries[|entries| - 1]);
      ReadyExactlyWhenFree(front, evidence);
      assert entries == front + [e];
      if e.isDirectory {
        var listed := Assessments(front, evidence);
        assert (listed + [Listed(e.name, Assess(e.session, evidence))])[..|listed|] == listed;
        assert Blocks(Assess(e.session, evidence)) <==> !LeavesSetupFree(e.session);
      } else {
        assert Assessments(entries, evidence) == Assessments(front, evidence);
      }
    }
  }
}
