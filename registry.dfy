/** The monitoring registry of services/redditMonitor.js: the
    `monitoringStatus` map from guild id to its scheduled job, with
    `startMonitoring`, `stopMonitoring` and `startMonitoringForAllGuilds`.
    A job is an opaque token; the five-minute schedule and the replies to the
    interaction are not modelled. */
module Monitoring {

  /** A scheduled monitoring job: which guild it ticks for, and a serial
      number that tells jobs apart. */
  datatype Job = Job(guildId: string, serial: nat)

  datatype StartReply = AlreadyActive | Started
  datatype StopReply = Stopped | WasNotActive

  /** `monitoringStatus` after `startMonitoring(g)` with `job` as the new
      job: unchanged if `g` already has one. */
  function StartEntry(jobs: map<string, Job>, g: string, job: Job): (r: map<string, Job>)
    ensures g in r && r.Keys == jobs.Keys + {g}
    ensures g in jobs ==> r == jobs
    ensures g !in jobs ==> r[g] == job
    ensures forall h :: h in jobs ==> r[h] == jobs[h]
  {
    if g in jobs then jobs else jobs[g := job]
  }

  /** `monitoringStatus` after `stopMonitoring(g)`. */
  function StopEntry(jobs: map<string, Job>, g: string): (r: map<string, Job>)
    ensures r.Keys == jobs.Keys - {g}
    ensures forall h :: h in r ==> r[h] == jobs[h]
  {
    jobs - {g}
  }

  /** Starting a guild that has no job and then stopping it restores the
      registry; stopping twice is stopping once; starting twice is starting
      once. */
  lemma StartStopRoundTrip(jobs: map<string, Job>, g: string, job: Job, job2: Job)
    ensures g !in jobs ==> StopEntry(StartEntry(jobs, g, job), g) == jobs
    ensures StopEntry(StopEntry(jobs, g), g) == StopEntry(jobs, g)
    ensures StartEntry(StartEntry(jobs, g, job), g, job2) == StartEntry(jobs, g, job)
  {
    if g !in jobs {
      assert StopEntry(StartEntry(jobs, g, job), g).Keys == jobs.Keys;
    }
  }

  /** Starting or stopping one guild never touches another guild's entry. */
  lemma OtherGuildsUntouched(jobs: map<string, Job>, g: string, h: string, job: Job)
    requires g != h
    ensures h in StartEntry(jobs, g, job) <==> h in jobs
    ensures h in StopEntry(jobs, g) <==> h in jobs
    ensures h in jobs ==> StartEntry(jobs, g, job)[h] == jobs[h] && StopEntry(jobs, g)[h] == jobs[h]
  {
  }

  /** The values of a map, as a set. */
  function Values(jobs: map<string, Job>): set<Job> {
    set g | g in jobs :: jobs[g]
  }

  class Registry {
    /** `monitoringStatus`. */
    var jobs: map<string, Job>
    /** The serial number the next job gets. */
    var nextSerial: nat
    /** The jobs whose schedule is running: started and not yet stopped. */
    var running: set<Job>

    /** Every registered job belongs to its guild, is running and has a serial
        below `nextSerial`; every running job is registered. */
    ghost predicate Valid()
      reads this
    {
      (forall g :: g in jobs ==> jobs[g].guildId == g && jobs[g].serial < nextSerial) &&
      running == Values(jobs)
    }

    constructor ()
      ensures Valid() && jobs == map[] && running == {}
    {
      jobs := map[];
      nextSerial := 0;
      running := {};
    }

    /** `startMonitoring(g)`: a guild with a job is left alone; otherwise a
        new job is scheduled, started and registered. */
    method StartMonitoring(g: string) returns (r: StartReply)
      requires Valid()
      modifies this
      ensures Valid()
      ensures r == AlreadyActive <==> g in old(jobs)
      ensures jobs == StartEntry(old(jobs), g, Job(g, old(nextSerial)))
      ensures g in old(jobs) ==> running == old(running) && nextSerial == old(nextSerial)
      ensures g !in old(jobs) ==> running == old(running) + {Job(g, old(nextSerial))} &&
                                  nextSerial == old(nextSerial) + 1
    {
      if g in jobs {
        return AlreadyActive;
      }
      var job := Job(g, nextSerial);
      nextSerial := nextSerial + 1;
      running := running + {job};
      jobs := jobs[g := job];
      r := Started;
      assert running == Values(jobs) by {
        forall j | j in running ensures j in Values(jobs) {
          if j != job {
            var h :| h in old(jobs) && old(jobs)[h] == j;
            assert h != g && h in jobs && jobs[h] == j;
          } else {
            assert g in jobs && jobs[g] == j;
          }
        }
        forall j | j in Values(jobs) ensures j in running {
          var h :| h in jobs && jobs[h] == j;
          if h != g {
            assert old(jobs)[h] == j;
          }
        }
      }
    }

    /** `stopMonitoring(g)`: a registered job is stopped and removed;
        otherwise nothing changes. */
    method StopMonitoring(g: string) returns (r: StopReply)
      requires Valid()
      modifies this
      ensures Valid()
      ensures r == Stopped <==> g in old(jobs)
      ensures jobs == StopEntry(old(jobs), g)
      ensures nextSerial == old(nextSerial)
      ensures g in old(jobs) ==> running == old(running) - {old(jobs)[g]}
      ensures g !in old(jobs) ==> running == old(running)
    {
      if g !in jobs {
        return WasNotActive;
      }
      var job := jobs[g];
      running := running - {job};
      jobs := jobs - {g};
      r := Stopped;
      assert running == Values(jobs) by {
        forall j | j in running ensures j in Values(jobs) {
          var h :| h in old(jobs) && old(jobs)[h] == j;
          assert h != g;
          assert jobs[h] == j;
        }
        forall j | j in Values(jobs) ensures j in running {
          var h :| h in jobs && jobs[h] == j;
          assert old(jobs)[h] == j;
          assert j.guildId == h;
        }
      }
    }

    /** `startMonitoringForAllGuilds` over the guild ids of the settings
        table: every listed guild ends up with a job, guilds that already had
        one keep it, and no other guild is touched. */
    method StartMonitoringForAllGuilds(guildIds: seq<string>)
      requires Valid()
      modifies this
      ensures Valid()
      ensures jobs.Keys == old(jobs).Keys + set k | 0 <= k < |guildIds| :: guildIds[k]
      ensures forall g :: g in old(jobs) ==> jobs[g] == old(jobs)[g]
    {
      var i := 0;
      while i < |guildIds|
        invariant 0 <= i <= |guildIds|
        invariant Valid()
        invariant jobs.Keys == old(jobs).Keys + set k | 0 <= k < i :: guildIds[k]
        invariant forall g :: g in old(jobs) ==> jobs[g] == old(jobs)[g]
      {
        if guildIds[i] !in jobs {
          var _ := StartMonitoring(guildIds[i]);
        }
        i := i + 1;
      }
    }
  }
}
