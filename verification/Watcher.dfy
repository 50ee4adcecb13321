/** The registry watcher: which tags a scan reports, what an acknowledgement commits,
    and when a round leaves nothing to do. */
module Watcher {
  import opened Common
  import opened Naming
  import opened Publish

  datatype Repo = Repo(name: string, eligible: string -> bool)

  /** What the registry answers during one scan: the sorted tags of a repository and the
      digest of a tag, or an error. */
  datatype Registry = Registry(tags: string -> Option<seq<string>>, digest: (string, string) -> Option<string>)

  /** The tag resolves to a digest other than the acknowledged one. */
  predicate Due(reg: Registry, state: map<string, string>, repo: string, tag: string) {
    && reg.digest(repo, tag).Some?
    && !(StateKey(repo, tag) in state && state[StateKey(repo, tag)] == reg.digest(repo, tag).value)
  }

  /** The requests of one repository, and of all of them, in scan order. */
  function DueTags(reg: Registry, state: map<string, string>, repo: Repo, tags: seq<string>): (qs: seq<Req>) {
    if tags == [] then []
    else
      var tag := tags[|tags| - 1];
      DueTags(reg, state, repo, tags[..|tags| - 1])
      + if repo.eligible(tag) && Due(reg, state, repo.name, tag)
        then [Req(repo.name, tag, reg.digest(repo.name, tag).value)] else []
  }

  function DueAll(reg: Registry, state: map<string, string>, repos: seq<Repo>): (qs: seq<Req>) {
    if repos == [] then []
    else
      var repo := repos[|repos| - 1];
      DueAll(reg, state, repos[..|repos| - 1])
      + if reg.tags(repo.name).Some? then DueTags(reg, state, repo, reg.tags(repo.name).value) else []
  }

  /** A listed tag that its repository's filters admit. */
  ghost predicate Listed(reg: Registry, repos: seq<Repo>, name: string, tag: string) {
    exists i | 0 <= i < |repos| :: repos[i].name == name && ListedIn(reg, repos[i], tag)
  }

  predicate ListedIn(reg: Registry, repo: Repo, tag: string) {
    reg.tags(repo.name).Some? && tag in reg.tags(repo.name).value && repo.eligible(tag)
  }

  lemma {:induction false} DueTagsExact(reg: Registry, state: map<string, string>, repo: Repo, tags: seq<string>,
                                        q: Req)
    ensures q in DueTags(reg, state, repo, tags) <==>
              && q.repo == repo.name && q.tag in tags && repo.eligible(q.tag)
              && Due(reg, state, q.repo, q.tag) && reg.digest(q.repo, q.tag) == Some(q.digest)
  {
    if tags != [] {
      DueTagsExact(reg, state, repo, tags[..|tags| - 1], q);
      assert tags[..|tags| - 1] + [tags[|tags| - 1]] == tags;
    }
  }

  /** A scan reports exactly the eligible tags whose digest is not acknowledged. */
  lemma {:induction false} DueAllExact(reg: Registry, state: map<string, string>, repos: seq<Repo>, q: Req)
    ensures q in DueAll(reg, state, repos) <==>
              && Listed(reg, repos, q.repo, q.tag) && reg.digest(q.repo, q.tag) == Some(q.digest)
              && !(StateKey(q.repo, q.tag) in state && state[StateKey(q.repo, q.tag)] == q.digest)
  {
    if repos != [] {
      var init, repo := repos[..|repos| - 1], repos[|repos| - 1];
      DueAllExact(reg, state, init, q);
      ListedSnoc(reg, init, repo, q.repo, q.tag);
      assert init + [repo] == repos;
      if reg.tags(repo.name).Some? { DueTagsExact(reg, state, repo, reg.tags(repo.name).value, q); }
    }
  }

  ghost predicate NoRepeats<T>(s: seq<T>) {
    forall i, j | 0 <= i < j < |s| :: s[i] != s[j]
  }

  lemma {:induction false} DueTagsDistinct(reg: Registry, state: map<string, string>, repo: Repo, tags: seq<string>)
    requires NoRepeats(tags)
    ensures NoRepeats(DueTags(reg, state, repo, tags))
  {
    if tags != [] {
      var init, tag := tags[..|tags| - 1], tags[|tags| - 1];
      DueTagsDistinct(reg, state, repo, init);
      var before, qs := DueTags(reg, state, repo, init), DueTags(reg, state, repo, tags);
      forall i, j | 0 <= i < j < |qs| ensures qs[i] != qs[j] {
        DueTagsExact(reg, state, repo, init, before[i]);
        assert before[i] in before && tag !in init;
      }
    }
  }

  /** No request is reported twice in one scan, if no repository is configured twice and no
      tag is listed twice. */
  lemma {:induction false} ReportedOnce(reg: Registry, state: map<string, string>, repos: seq<Repo>)
    requires forall i, j | 0 <= i < j < |repos| :: repos[i].name != repos[j].name
    requires forall i | 0 <= i < |repos| && reg.tags(repos[i].name).Some? :: NoRepeats(reg.tags(repos[i].name).value)
    ensures NoRepeats(DueAll(reg, state, repos))
  {
    if repos != [] {
      var init, repo := repos[..|repos| - 1], repos[|repos| - 1];
      ReportedOnce(reg, state, init);
      if reg.tags(repo.name).Some? {
        var tags := reg.tags(repo.name).value;
        DueTagsDistinct(reg, state, repo, tags);
        Apart(reg, state, init, repo, tags);
        DistinctAppend(DueAll(reg, state, init), DueTags(reg, state, repo, tags));
      }
    }
  }

  lemma DistinctAppend(a: seq<Req>, b: seq<Req>)
    requires NoRepeats(a) && NoRepeats(b) && forall q | q in a :: q !in b
    ensures NoRepeats(a + b)
  {
    forall i, j | 0 <= i < j < |a + b| ensures (a + b)[i] != (a + b)[j] {
      if i < |a| <= j { assert a[i] in a && b[j - |a|] in b; }
    }
  }

  lemma Apart(reg: Registry, state: map<string, string>, init: seq<Repo>, repo: Repo, tags: seq<string>)
    requires forall i | 0 <= i < |init| :: init[i].name != repo.name
    ensures forall q | q in DueAll(reg, state, init) :: q !in DueTags(reg, state, repo, tags)
  {
    forall q | q in DueAll(reg, state, init) ensures q !in DueTags(reg, state, repo, tags) {
      DueAllExact(reg, state, init, q);
      DueTagsExact(reg, state, repo, tags, q);
    }
  }

  lemma ListedSnoc(reg: Registry, repos: seq<Repo>, repo: Repo, name: string, tag: string)
    ensures Listed(reg, repos + [repo], name, tag) <==>
            Listed(reg, repos, name, tag) || (repo.name == name && ListedIn(reg, repo, tag))
  {
    var all := repos + [repo];
    assert all[|repos|] == repo;
    if Listed(reg, repos, name, tag) {
      var i :| 0 <= i < |repos| && repos[i].name == name && ListedIn(reg, repos[i], tag);
      assert all[i] == repos[i];
    }
  }

  /** The state after acknowledging requests in order. */
  function Acknowledged(state: map<string, string>, qs: seq<Req>): (s: map<string, string>) {
    if qs == [] then state
    else
      var q := qs[|qs| - 1];
      Acknowledged(state, qs[..|qs| - 1])[StateKey(q.repo, q.tag) := q.digest]
  }

  lemma {:induction false} AcknowledgedValue(state: map<string, string>, qs: seq<Req>, key: string, digest: string)
    requires forall q | q in qs && StateKey(q.repo, q.tag) == key :: q.digest == digest
    requires (exists q | q in qs :: StateKey(q.repo, q.tag) == key) || (key in state && state[key] == digest)
    ensures key in Acknowledged(state, qs) && Acknowledged(state, qs)[key] == digest
  {
    if qs != [] {
      var init, q := qs[..|qs| - 1], qs[|qs| - 1];
      assert init + [q] == qs;
      if StateKey(q.repo, q.tag) != key {
        AcknowledgedValue(state, init, key, digest);
      }
    }
  }

  /** Quiescence: once every request of a scan has been acknowledged, the same registry
      yields no request, whatever was acknowledged before. */
  lemma Quiescent(reg: Registry, state: map<string, string>, repos: seq<Repo>, q: Req)
    requires forall i | 0 <= i < |repos| :: NoNul(repos[i].name)
    ensures q !in DueAll(reg, Acknowledged(state, DueAll(reg, state, repos)), repos)
  {
    var qs := DueAll(reg, state, repos);
    var after := Acknowledged(state, qs);
    DueAllExact(reg, after, repos, q);
    DueAllExact(reg, state, repos, q);
    if Listed(reg, repos, q.repo, q.tag) && reg.digest(q.repo, q.tag) == Some(q.digest) {
      var key := StateKey(q.repo, q.tag);
      forall p | p in qs && StateKey(p.repo, p.tag) == key ensures p.digest == q.digest {
        DueAllExact(reg, state, repos, p);
        StateKeyInjective(p.repo, p.tag, q.repo, q.tag);
      }
      AcknowledgedValue(state, qs, key, q.digest);
    }
  }

  class Watcher {
    const repos: seq<Repo>
    var state: map<string, string>              // acknowledged digest by repo NUL tag
    var file: Option<map<string, string>>       // the state file

    /** NewWatcher: memory starts from the file. */
    constructor (repos: seq<Repo>, file: Option<map<string, string>>)
      ensures this.repos == repos && this.file == file
      ensures state == Stored(file)
    {
      this.repos, this.file := repos, file;
      this.state := Stored(file);
    }

    /** Acknowledge: the file first, then memory. */
    method Acknowledge(q: Req, fault: Fault) returns (ok: bool)
      modifies this
      ensures ok <==> fault == NoFault
      ensures state == if fault == NoFault then old(state)[StateKey(q.repo, q.tag) := q.digest] else old(state)
      ensures file == if fault == FailBefore then old(file) else Some(old(state)[StateKey(q.repo, q.tag) := q.digest])
    {
      var digests := state[StateKey(q.repo, q.tag) := q.digest];
      if fault != FailBefore {
        file := Some(digests);
      }
      if fault != NoFault {
        return false;
      }
      state := digests;
      return true;
    }

    /** PollOnce: errors skip a repository or a tag and do not hide the others. */
    method PollOnce(reg: Registry) returns (emitted: seq<Req>, failed: bool)
      ensures emitted == DueAll(reg, state, repos)
      ensures !failed <==> forall i | 0 <= i < |repos| :: Answered(reg, repos[i])
    {
      emitted, failed := [], false;
      for i := 0 to |repos|
        invariant emitted == DueAll(reg, state, repos[..i])
        invariant !failed <==> forall k | 0 <= k < i :: Answered(reg, repos[k])
      {
        assert repos[..i + 1][..i] == repos[..i];
        var tags := reg.tags(repos[i].name);
        if tags.None? {
          failed := true;
        } else {
          var qs, bad := PollRepo(reg, repos[i], tags.value);
          emitted, failed := emitted + qs, failed || bad;
        }
      }
      assert repos[..|repos|] == repos;
    }

    method PollRepo(reg: Registry, repo: Repo, tags: seq<string>) returns (emitted: seq<Req>, failed: bool)
      ensures emitted == DueTags(reg, state, repo, tags)
      ensures !failed <==> forall i | 0 <= i < |tags| && repo.eligible(tags[i]) :: reg.digest(repo.name, tags[i]).Some?
    {
      emitted, failed := [], false;
      for i := 0 to |tags|
        invariant emitted == DueTags(reg, state, repo, tags[..i])
        invariant !failed <==> forall k | 0 <= k < i && repo.eligible(tags[k]) :: reg.digest(repo.name, tags[k]).Some?
      {
        assert tags[..i + 1][..i] == tags[..i];
        var tag := tags[i];
        if repo.eligible(tag) {
          var digest, key := reg.digest(repo.name, tag), StateKey(repo.name, tag);
          if digest.None? {
            failed := true;
          } else if !(key in state && state[key] == digest.value) {
            emitted := emitted + [Req(repo.name, tag, digest.value)];
          }
        }
      }
      assert tags[..|tags|] == tags;
    }

    /** One round of Run: trigger and acknowledge in scan order, stop at the first
        failure. After a round without failure this process finds nothing to do. Nor
        does a restarted one, since the state file agrees with memory if the round
        acknowledged anything or it agreed before. A round in which everything is answered
        and succeeds does not fail, and one that fails has acknowledged a prefix. */
    method Round(reg: Registry, trigger: nat -> bool, fault: nat -> Fault) returns (failed: bool)
      requires forall i | 0 <= i < |repos| :: NoNul(repos[i].name)
      modifies this
      ensures !failed ==> state == Acknowledged(old(state), DueAll(reg, old(state), repos))
      ensures !failed ==> DueAll(reg, state, repos) == []
      ensures (&& (forall i | 0 <= i < |repos| :: Answered(reg, repos[i]))
               && (forall k :: trigger(k) && fault(k) == NoFault))
              ==> !failed
      ensures exists k | 0 <= k <= |DueAll(reg, old(state), repos)| ::
                state == Acknowledged(old(state), DueAll(reg, old(state), repos)[..k])
      ensures !failed && (DueAll(reg, old(state), repos) != [] || old(state == Stored(file))) ==> state == Stored(file)
    {
      var qs;
      qs, failed := PollOnce(reg);
      for i := 0 to |qs|
        invariant state == Acknowledged(old(state), qs[..i])
        invariant i > 0 || old(state == Stored(file)) ==> state == Stored(file)
      {
        assert qs[..i + 1][..i] == qs[..i];
        if !trigger(i) {
          return true;
        }
        var ok := Acknowledge(qs[i], fault(i));
        if !ok {
          return true;
        }
      }
      assert qs[..|qs|] == qs;
      var due := DueAll(reg, state, repos);
      forall q ensures q !in due { Quiescent(reg, old(state), repos, q); }
      assert due != [] ==> due[0] in due;
    }
  }

  /** What a process that starts now would load. */
  function Stored(file: Option<map<string, string>>): (state: map<string, string>) {
    if file.Some? then file.value else map[]
  }

  ghost predicate Answered(reg: Registry, repo: Repo) {
    && reg.tags(repo.name).Some?
    && var tags := reg.tags(repo.name).value;
       forall i | 0 <= i < |tags| && repo.eligible(tags[i]) :: reg.digest(repo.name, tags[i]).Some?
  }
}
