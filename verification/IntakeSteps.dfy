/** What can happen to a submission at each point, and what it leaves on disk when it goes. */
module IntakeSteps {
  import opened Base
  import opened Jobs
  import opened JobHistory
  import opened Staging
  import opened LocalStorage
  import opened Intake

  /** Anyone may submit anything but nothing, and a worker may do to a committed job whatever its row allows. */
  lemma ArrivalsAndWorkAreOpen(sv: Server, shop: Shop, content: Bytes, job: JobId, e: Event)
    ensures Enabled(sv, shop, Arrive(content)) <==> content != []
    ensures Enabled(sv, shop, Work(job, e)) <==> job in shop.jobs && Step(shop.jobs[job], e).Some?
    ensures Enabled(sv, shop, Work(job, e)) ==>
      var after := Fire(sv, shop, Work(job, e));
      && after == shop.(jobs := after.jobs) && after.jobs.Keys == shop.jobs.Keys
      && Some(after.jobs[job]) == Step(shop.jobs[job], e)
      && forall j | j in shop.jobs && j != job :: after.jobs[j] == shop.jobs[j]
  {}

  /** A live submission may fail or crash at any point, and be cancelled while it stores, however far it has come. */
  lemma AnythingMayGoWrong(sv: Server, shop: Shop, i: nat)
    requires i < |shop.subs| && Live(shop.subs[i].phase)
    ensures Enabled(sv, shop, Do(i, Raise)) && Fire(sv, shop, Do(i, Raise)).subs[i].phase == Gone
    ensures Enabled(sv, shop, Do(i, Crash)) && Fire(sv, shop, Do(i, Crash)).subs[i].phase == Gone
    ensures Enabled(sv, shop, Do(i, Cancel)) <==> shop.subs[i].phase.Storing? && shop.subs[i].phase.wanted
  {}

  /** Sealing may stop after any number of bytes; once they are all written the rename may succeed or be refused. */
  lemma StoringMayStopAnywhere(sv: Server, shop: Shop, i: nat, n: nat, refused: bool)
    requires Inv(sv, shop) && i < |shop.subs| && shop.subs[i].phase.Storing?
    ensures CanSeal(sv)
    ensures var p := shop.subs[i].phase;
      var whole := SealedCopy(sv, shop.subs[i].content, p.nonce);
      && (Enabled(sv, shop, Do(i, Write(n))) <==> p.written < n <= |whole|)
      && (Enabled(sv, shop, Do(i, Promote(refused))) <==> p.written == |whole|)
  {
    assert SubSound(sv, shop, i, shop.subs[i]);
  }

  /**
   * How a rename ends. Losing the race is no error: with an object there, its own or another's, the submission goes
   * on unless it was cancelled; without one it is gone. Either way its partial file is.
   */
  lemma LostRacesGoOn(sv: Server, shop: Shop, i: nat, refused: bool)
    requires Inv(sv, shop) && Enabled(sv, shop, Do(i, Promote(refused)))
    ensures var sub, after := shop.subs[i], Fire(sv, shop, Do(i, Promote(refused)));
      var path := PathFor(sv.site.root, Digest(sv, sub.content));
      && (path in after.files <==> path in shop.files || !refused)
      && (after.subs[i].phase == Stored(sub.phase.ticket) <==> sub.phase.wanted && path in after.files)
      && (after.subs[i].phase == Gone <==> !sub.phase.wanted || path !in after.files)
      && PartialOf(sv, sub) !in after.files
  {
    PartialsHide(sv, shop.subs[i], shop.subs[i].phase.suffix, Digest(sv, shop.subs[i].content));
  }

  /** Nothing but a crash leaves a partial file behind, and a crash changes no file. */
  lemma OnlyCrashesLeavePartials(sv: Server, shop: Shop, i: nat, deed: Deed)
    requires Inv(sv, shop) && Enabled(sv, shop, Do(i, deed)) && shop.subs[i].phase.Storing?
    ensures var after := Fire(sv, shop, Do(i, deed));
      && (PartialOf(sv, shop.subs[i]) in after.files <==> after.subs[i].phase.Storing? || deed.Crash?)
      && (deed.Crash? || deed.Cancel? ==> after.files == shop.files)
  {
    assert SubSound(sv, shop, i, shop.subs[i]);
    if deed.Promote? {
      LostRacesGoOn(sv, shop, i, deed.refused);
    }
  }

  /** An object that is there is not written again: the check goes straight on exactly if the digest can be found. */
  lemma StoredObjectsAreAdopted(sv: Server, shop: Shop, i: nat)
    requires Enabled(sv, shop, Do(i, CheckExists))
    ensures var sub, after := shop.subs[i], Fire(sv, shop, Do(i, CheckExists));
      && after.files == shop.files
      && (after.subs[i].phase == Stored(sub.phase.ticket) <==>
            ReadAs(sv, shop, Digest(sv, sub.content)) != Err(SampleNotFound))
      && (after.subs[i].phase == Missing(sub.phase.ticket) <==>
            ReadAs(sv, shop, Digest(sv, sub.content)) == Err(SampleNotFound))
  {}
}
