/** The agent as an object (internal/agent/agent.go): what its handlers and loops do to the job
    table, the update cache and the published stats are the agent's steps of the protocol. */
module AgentProcess {
  import opened Base
  import opened Jobs
  import opened Poller
  import opened Protocol
  import opened UpdateCache

  // A container as Docker lists it, before its update status is filled in.
  datatype Listed = Listed(container: Poller.Container, imageID: string)

  // What a job works on: the inspected container's name and the image it ran then.
  datatype Target = Target(name: string, imageID: string)

  datatype Response = NotFound | AlreadyRunning | Accepted

  function Marked(listed: seq<Listed>, cache: Cache): seq<Poller.Container> {
    seq(|listed|, i requires 0 <= i < |listed| =>
      listed[i].container.(updateAvailable := Available(Look(cache, listed[i].imageID))))
  }

  /** What is published of a container is what was listed, and as its update status the cached one
      of its image, no update if there is none. */
  lemma MarkedExactly(listed: seq<Listed>, cache: Cache, i: nat)
    requires i < |listed|
    ensures |Marked(listed, cache)| == |listed|
    ensures var c, id := Marked(listed, cache)[i], listed[i].imageID;
      && c.id == listed[i].container.id && c.name == listed[i].container.name && c.state == listed[i].container.state
      && (c.updateAvailable <==> id in cache && cache[id].available)
  {
  }

  lemma RunningRetained(jobs: Table, now: int)
    ensures forall n :: IsRunning(Retained(jobs, now), n) <==> IsRunning(jobs, n)
  {
  }

  class AgentProcess {
    const tracker: JobTracker
    const updates: Checker
    var lastContainers: seq<Poller.Container>
    var lastJobs: Table
    // Who started each running job, and when.
    ghost var live: map<string, LiveJob>

    ghost predicate Valid()
      reads this, tracker, tracker.jobs.Values
    {
      tracker.Valid() && forall n :: n in live <==> IsRunning(tracker.Contents(), n)
    }

    ghost function View(): Protocol.Agent
      reads this, tracker, tracker.jobs.Values
    {
      Protocol.Agent(tracker.Contents(), live, lastContainers, lastJobs)
    }

    constructor ()
      ensures Valid() && View() == Protocol.Agent(map[], map[], [], map[])
      ensures fresh(tracker) && fresh(updates) && updates.cache == map[]
    {
      tracker := new JobTracker();
      updates := new Checker();
      lastContainers, lastJobs, live := [], map[], map[];
    }

    /** Publishes the containers with their cached update status, and a snapshot of the jobs.
        Listing the containers may fail, and then nothing changes. */
    method Refresh(listing: Option<seq<Listed>>, stamp: int)
      requires Valid()
      modifies this, tracker
      ensures Valid() && tracker.live == old(tracker.live)
      ensures View() ==
        if listing.None? then old(View()) else Published(old(View()), Marked(listing.value, updates.cache), stamp)
    {
      if listing == None {
        return;
      }
      var containers := Mark(listing.value);
      Publish(containers, stamp);
    }

    method Publish(containers: seq<Poller.Container>, stamp: int)
      requires Valid()
      modifies this`lastContainers, this`lastJobs, tracker
      ensures Valid() && tracker.live == old(tracker.live)
      ensures View() == Published(old(View()), containers, stamp)
    {
      hide Retained, IsRunning, JobTracker.Contents, JobTracker.Valid;
      RunningRetained(tracker.Contents(), stamp);
      lastJobs := tracker.Snapshot(stamp);
      lastContainers := containers;
    }

    method Mark(listed: seq<Listed>) returns (containers: seq<Poller.Container>)
      ensures containers == Marked(listed, updates.cache)
    {
      containers := [];
      for i := 0 to |listed|
        invariant containers == Marked(listed[..i], updates.cache)
      {
        var available := updates.UpdateAvailable(listed[i].imageID);
        containers := containers + [listed[i].container.(updateAvailable := available)];
      }
      assert listed[..|listed|] == listed;
    }

    /** Starts a job in the background, unless one runs under the container's name. The target is
        None when inspecting it failed. */
    method StartJob(target: Option<Target>, action: Action, stamp: int, ghost job: LiveJob)
      returns (response: Response, handle: JobStatus?)
      requires Valid()
      modifies this, tracker
      ensures Valid()
      ensures View() ==
        if target.None? then old(View()) else Launched(old(View()), target.value.name, action, stamp, job)
      ensures response == if target.None? then NotFound
        else if IsRunning(old(View()).jobs, target.value.name) then AlreadyRunning else Accepted
      ensures handle != null <==> response == Accepted
      ensures handle != null ==> (target.value.name, handle) in tracker.live
    {
      if target == None {
        return NotFound, null;
      }
      hide JobTracker.Contents, JobTracker.Valid;
      handle := tracker.Start(target.value.name, action, stamp);
      if handle == null {
        return AlreadyRunning, null;
      }
      live := live[target.value.name := job];
      response := Accepted;
    }

    /** The job's work ended: a successful upgrade drops its old image's cached status before the
        outcome is recorded. */
    method FinishJob(target: Target, handle: JobStatus, action: Action, err: Option<string>, stamp: int)
      requires Valid() && (target.name, handle) in tracker.live
      modifies this, tracker, updates, handle
      ensures Valid()
      ensures View() == Finished(old(View()), target.name, err, stamp)
      ensures updates.Contents() ==
        if action == Upgrade && err.None? then Drop(old(updates.Contents()), target.imageID)
        else old(updates.Contents())
    {
      hide JobTracker.Contents, JobTracker.Valid;
      if action == Upgrade && err.None? {
        updates.DropEntry(target.imageID);
      }
      tracker.Complete(target.name, handle, err, stamp);
      live := live - {target.name};
    }
  }
}
