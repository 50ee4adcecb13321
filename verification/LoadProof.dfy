/** The post-load proof: what Docker stored is exactly what was signed. */
module LoadProof {
  import opened Common

  ghost predicate Stored(refs: seq<string>, saved: string -> Option<string>, id: string) {
    exists r | r in refs :: saved(r) == Some(id)
  }

  /** At least one image was reported, every reported reference saves to a signed
      config, and every signed config is saved by some reported reference. */
  ghost predicate Proves(refs: seq<string>, saved: string -> Option<string>, ids: seq<string>) {
    && refs != []
    && (forall r | r in refs :: saved(r).Some? && saved(r).value in ids)
    && (forall id | id in ids :: Stored(refs, saved, id))
  }

  /** verifyLoadedConfigIdentity. `refs` is the parsed load report and `saved(ref)` the
      digest of the config bytes saved back out of the store, if that succeeds. */
  method VerifyLoadedConfigIdentity(refs: seq<string>, saved: string -> Option<string>, ids: seq<string>)
      returns (ok: bool)
    ensures ok <==> Proves(refs, saved, ids)
    ensures ok <==> && refs != []
                    && (forall r | r in refs :: saved(r).Some? && saved(r).value in ids)
                    && (forall id | id in ids :: exists r | r in refs :: saved(r) == Some(id))
  {
    if |refs| == 0 {
      return false;
    }
    var signed, covered: set<string> := set id | id in ids, {};
    for i := 0 to |refs|
      invariant forall k | 0 <= k < i :: saved(refs[k]).Some? && saved(refs[k]).value in signed
      invariant forall k | 0 <= k < i :: saved(refs[k]).value in covered
      invariant forall id | id in covered :: Stored(refs, saved, id)
    {
      var config := saved(refs[i]);
      assert refs[i] in refs;
      if config.None? || config.value !in signed {
        return false;
      }
      covered := covered + {config.value};
    }
    assert forall id | Stored(refs, saved, id) :: id in covered by {
      forall id | Stored(refs, saved, id) ensures id in covered {
        var r :| r in refs && saved(r) == Some(id);
        var k :| 0 <= k < |refs| && refs[k] == r;
        assert saved(refs[k]).value == id;
      }
    }
    ok := forall id | id in signed :: id in covered;
  }
}
