/**
 Names of staging directories (internal/cache/manager.go, fetchFromOrigin): an
 adapter ID is flattened by replacing every "/" with "__".
 */
module Staging {
  const TMP_PREFIX := ".tmp-"

  /** `strings.ReplaceAll(id, "/", "__")`. */
  function SafeId(id: string): string {
    if id == "" then ""
    else if id[0] == '/' then "__" + SafeId(id[1..])
    else [id[0]] + SafeId(id[1..])
  }

  function TmpPath(id: string): string {
    TMP_PREFIX + SafeId(id)
  }

  /** Reads every "__", left to right, back as "/". */
  function Restore(s: string): string
    decreases |s|
  {
    if s == "" then ""
    else if |s| >= 2 && s[0] == '_' && s[1] == '_' then "/" + Restore(s[2..])
    else [s[0]] + Restore(s[1..])
  }

  /** An underscore directly followed by an underscore or a slash: the flattened name hides where it stood. */
  predicate Ambiguous(id: string) {
    |id| >= 2 && ((id[0] == '_' && (id[1] == '_' || id[1] == '/')) || Ambiguous(id[1..]))
  }

  lemma {:induction false} SafeIdHead(id: string)
    requires id != ""
    ensures SafeId(id) != "" && (SafeId(id)[0] == '_' <==> id[0] == '_' || id[0] == '/')
  {
  }

  /** Flattening can be undone exactly for the IDs that are not ambiguous. */
  lemma {:induction false} RestoreIffUnambiguous(id: string)
    ensures Restore(SafeId(id)) == id <==> !Ambiguous(id)
  {
    if id != "" {
      var rest := id[1..];
      RestoreIffUnambiguous(rest);
      assert id == [id[0]] + rest;
      if id[0] == '/' {
        assert SafeId(id)[2..] == SafeId(rest);
        assert Restore(SafeId(id)) == "/" + Restore(SafeId(rest));
        assert Restore(SafeId(id))[1..] == Restore(SafeId(rest));
        AmbiguousStep(id);
      } else {
        assert SafeId(id)[1..] == SafeId(rest);
        if rest != "" {
          SafeIdHead(rest);
          if id[0] == '_' && (rest[0] == '_' || rest[0] == '/') {
            assert SafeId(id)[1] == '_';
            assert Restore(SafeId(id))[0] == '/';
          } else {
            assert Restore(SafeId(id)) == [id[0]] + Restore(SafeId(rest));
            assert Restore(SafeId(id))[1..] == Restore(SafeId(rest));
          }
        }
      }
    }
  }

  lemma {:induction false} AmbiguousStep(id: string)
    requires id != "" && id[0] != '_'
    ensures Ambiguous(id) == Ambiguous(id[1..])
  {
  }

  /** Distinct unambiguous IDs never share a staging directory. */
  lemma {:induction false} StagingIsolated(a: string, b: string)
    requires !Ambiguous(a) && !Ambiguous(b) && TmpPath(a) == TmpPath(b)
    ensures a == b
  {
    assert SafeId(a) == TmpPath(a)[|TMP_PREFIX|..] == SafeId(b);
    RestoreIffUnambiguous(a);
    RestoreIffUnambiguous(b);
  }

  /** Somewhere in the ID, two underscores in a row. */
  predicate Doubled(id: string) {
    |id| >= 2 && ((id[0] == '_' && id[1] == '_') || Doubled(id[1..]))
  }

  lemma {:induction false} SafeIdConcat(a: string, b: string)
    ensures SafeId(a + b) == SafeId(a) + SafeId(b)
  {
    if a == "" {
      assert a + b == b;
    } else {
      assert (a + b)[1..] == a[1..] + b;
      SafeIdConcat(a[1..], b);
    }
  }

  /** Flattening leaves only the IDs without a slash as they are. */
  lemma {:induction false} SafeIdKeeps(id: string)
    ensures '/' !in id ==> SafeId(id) == id
    ensures '/' in id ==> Doubled(SafeId(id))
  {
    if id != "" {
      assert id == [id[0]] + id[1..];
      SafeIdKeeps(id[1..]);
      if id[0] == '/' {
        assert SafeId(id)[0] == '_' && SafeId(id)[1] == '_';
      } else {
        assert SafeId(id)[1..] == SafeId(id[1..]);
      }
    }
  }

  /** An ID of the same flattened name: one "/" becomes "__", or one "__" becomes "/". */
  function Twin(id: string): string
    requires '/' in id || Doubled(id)
  {
    if id[0] == '/' then "__" + id[1..]
    else if |id| >= 2 && id[0] == '_' && id[1] == '_' then "/" + id[2..]
    else [id[0]] + Twin(id[1..])
  }

  lemma {:induction false} TwinShares(id: string)
    requires '/' in id || Doubled(id)
    ensures Twin(id) != id && SafeId(Twin(id)) == SafeId(id)
  {
    assert id == [id[0]] + id[1..];
    if id[0] == '/' {
      SafeIdConcat("__", id[1..]);
      SafeIdKeeps("__");
    } else if |id| >= 2 && id[0] == '_' && id[1] == '_' {
      assert id == "__" + id[2..];
      SafeIdConcat("__", id[2..]);
      SafeIdKeeps("__");
      assert ("/" + id[2..])[1..] == id[2..];
    } else {
      TwinShares(id[1..]);
      var t := Twin(id);
      assert t[1..] == Twin(id[1..]) && t[0] == id[0];
    }
  }

  /**
   Which IDs can be disturbed at all: another ID shares the staging directory of `a` if
   and only if `a` contains "/" or "__".
   */
  lemma {:induction false} StagingSharedIff(a: string)
    ensures (exists b :: b != a && TmpPath(b) == TmpPath(a)) <==> '/' in a || Doubled(a)
  {
    if '/' in a || Doubled(a) {
      TwinShares(a);
      assert TmpPath(Twin(a)) == TmpPath(a);
    } else {
      forall b | TmpPath(b) == TmpPath(a) ensures b == a {
        assert SafeId(b) == TmpPath(b)[|TMP_PREFIX|..] == TmpPath(a)[|TMP_PREFIX|..] == SafeId(a);
        SafeIdKeeps(a);
        SafeIdKeeps(b);
      }
    }
  }

  /** Two IDs the code accepts that do share one. */
  lemma StagingCollision()
    ensures TmpPath("a/b") == TmpPath("a__b") && Ambiguous("a__b")
  {
    assert SafeId("b") == "b" + SafeId("");
    assert SafeId("/b") == "__" + SafeId("b");
    assert SafeId("a/b") == "a" + SafeId("/b");
    assert "_b"[1..] == "b" && "__b"[1..] == "_b" && "a__b"[1..] == "__b";
    assert SafeId("_b") == "_" + SafeId("b");
    assert SafeId("__b") == "_" + SafeId("_b");
    assert SafeId("a__b") == "a" + SafeId("__b");
  }

  /** A staging name is a single path component. */
  lemma {:induction false} SafeIdHasNoSlash(id: string)
    ensures '/' !in SafeId(id)
  {
    if id != "" {
      SafeIdHasNoSlash(id[1..]);
    }
  }

  lemma {:induction false} TmpPathHasNoSlash(id: string)
    ensures '/' !in TmpPath(id)
  {
    SafeIdHasNoSlash(id);
  }
}
