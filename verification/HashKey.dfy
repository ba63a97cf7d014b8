/**
 Routing keys (internal/proxy/body.go, buildHashKey) and the validation of their
 configuration (internal/config/config.go, validateHashOn).
 */
module HashKey {
  import opened Common

  const HEADER := "header:"
  const SUFFIX := "/model"

  /** What a request contributes: its model, its tenant and its headers. */
  datatype Request = Request(model: string, tenant: string, header: string -> string)

  function TrimPrefix(s: string, p: string): string {
    if p <= s then s[|p|..] else s
  }

  predicate HasSuffix(s: string, p: string) {
    |p| <= |s| && s[|s| - |p|..] == p
  }

  function TrimSuffix(s: string, p: string): string {
    if HasSuffix(s, p) then s[..|s| - |p|] else s
  }

  /** Index of the first slash; the length when there is none. */
  function Slash(s: string): (i: nat)
    ensures i <= |s| && '/' !in s[..i] && (i < |s| ==> s[i] == '/')
  {
    if s == "" || s[0] == '/' then 0 else
      var rest := Slash(s[1..]);
      assert s[..1 + rest] == [s[0]] + s[1..][..rest];
      1 + rest
  }

  // ---------------------------------------------------------------------
  // Validator and key builder
  // ---------------------------------------------------------------------

  /** The header name the validator checks. */
  function ValidatedName(hashOn: string): string {
    TrimSuffix(TrimPrefix(hashOn, HEADER), SUFFIX)
  }

  predicate Accepted(hashOn: string) {
    || hashOn == "model" || hashOn == "tenant" || hashOn == "tenant/model"
    || (HEADER <= hashOn && ValidatedName(hashOn) != "")
  }

  /** `strings.SplitN(spec, "/", 2)[0]`. */
  function LookedUpName(spec: string): string {
    spec[..Slash(spec)]
  }

  /** Two parts, the second being exactly "model". */
  predicate Composite(spec: string) {
    Slash(spec) < |spec| && spec[Slash(spec) + 1..] == "model"
  }

  function BuildKey(r: Request, hashOn: string): string {
    if hashOn == "model" then r.model
    else if hashOn == "tenant" then r.tenant
    else if hashOn == "tenant/model" then Joined(r.tenant, r.model)
    else if HEADER <= hashOn then
      var spec := TrimPrefix(hashOn, HEADER);
      var value := r.header(LookedUpName(spec));
      if Composite(spec) then Joined(value, r.model) else value
    else r.model
  }

  /** `value/model`, or the model alone when the value is missing. */
  function Joined(value: string, model: string): string {
    if value != "" then value + "/" + model else model
  }

  lemma {:induction false} SlashUnique(s: string, i: nat)
    requires i <= |s| && '/' !in s[..i] && (i < |s| ==> s[i] == '/')
    ensures Slash(s) == i
  {
  }

  /**
   The validator and the key builder agree on the header name if and only if the name
   the validator accepted has no slash; then they also agree on whether the key is
   composite.
   */
  lemma {:induction false} NamesAgreeIffNoSlash(hashOn: string)
    requires HEADER <= hashOn && Accepted(hashOn)
    ensures var spec := TrimPrefix(hashOn, HEADER);
            && (LookedUpName(spec) == ValidatedName(hashOn) <==> '/' !in ValidatedName(hashOn))
            && ('/' !in ValidatedName(hashOn) ==> (Composite(spec) <==> HasSuffix(spec, SUFFIX)))
  {
    var spec, name := TrimPrefix(hashOn, HEADER), ValidatedName(hashOn);
    if '/' !in name {
      if HasSuffix(spec, SUFFIX) {
        assert spec == name + SUFFIX;
        assert spec[|name|] == SUFFIX[0] == '/';
        SlashUnique(spec, |name|);
      } else {
        SlashUnique(spec, |spec|);
      }
    }
  }

  /** A configuration that passes validation and is then read differently. */
  lemma SlashInNameMisread()
    ensures Accepted("header:a/b") && ValidatedName("header:a/b") == "a/b" && LookedUpName("a/b") == "a"
  {
    var h := "header:a/b";
    assert TrimPrefix(h, HEADER) == "a/b";
    assert Slash("/b") == 0 && "a/b"[1..] == "/b";
    assert Slash("a/b") == 1;
  }

  // ---------------------------------------------------------------------
  // Which composite keys collide
  // ---------------------------------------------------------------------

  /** One header value continues into the other's model. */
  ghost predicate Overlaps(h1: string, m1: string, h2: string, m2: string) {
    exists mid :: h2 == h1 + "/" + mid && m1 == mid + "/" + m2
  }

  lemma {:induction false} OverlapFound(h1: string, m1: string, h2: string, m2: string)
    requires |h1| < |h2| && h1 + "/" + m1 == h2 + "/" + m2
    ensures Overlaps(h1, m1, h2, m2)
  {
    var key := h1 + "/" + m1;
    var mid := h2[|h1| + 1..];
    assert h2 == key[..|h2|] && h2[|h1|] == key[|h1|] == '/';
    assert h2 == h1 + "/" + mid by {
      assert h2[..|h1|] == key[..|h1|] == h1;
      assert h2 == h2[..|h1|] + [h2[|h1|]] + mid;
    }
    assert m1 == key[|h1| + 1..];
    assert m1 == mid + "/" + m2 by {
      assert key == (h1 + "/") + (mid + "/" + m2);
      assert key[|h1| + 1..] == mid + "/" + m2;
    }
  }

  lemma {:induction false} PresentCollideIff(h1: string, m1: string, h2: string, m2: string)
    requires h1 != "" && h2 != ""
    ensures Joined(h1, m1) == Joined(h2, m2) <==>
              (h1 == h2 && m1 == m2) || Overlaps(h1, m1, h2, m2) || Overlaps(h2, m2, h1, m1)
  {
    if Joined(h1, m1) == Joined(h2, m2) {
      if |h1| < |h2| {
        OverlapFound(h1, m1, h2, m2);
      } else if |h2| < |h1| {
        OverlapFound(h2, m2, h1, m1);
      } else {
        var key := h1 + "/" + m1;
        assert h1 == key[..|h1|] == h2 && m1 == key[|h1| + 1..] == m2;
      }
    }
    if Overlaps(h1, m1, h2, m2) {
      var mid :| h2 == h1 + "/" + mid && m1 == mid + "/" + m2;
      assert h1 + "/" + (mid + "/" + m2) == (h1 + "/" + mid) + "/" + m2;
    }
    if Overlaps(h2, m2, h1, m1) {
      var mid :| h1 == h2 + "/" + mid && m2 == mid + "/" + m1;
      assert h2 + "/" + (mid + "/" + m1) == (h2 + "/" + mid) + "/" + m1;
    }
  }

  /** The first request's value and model read like the second's value running on into its model, or, without a value, like both. */
  ghost predicate Absorbs(h1: string, m1: string, h2: string, m2: string) {
    h2 != "" && if h1 == "" then m1 == h2 + "/" + m2 else Overlaps(h1, m1, h2, m2)
  }

  /** Composite keys, with or without the value, are equal exactly for equal parts and where one request absorbs the other. */
  lemma {:induction false} KeysCollideIff(h1: string, m1: string, h2: string, m2: string)
    ensures Joined(h1, m1) == Joined(h2, m2) <==>
              (h1 == h2 && m1 == m2) || Absorbs(h1, m1, h2, m2) || Absorbs(h2, m2, h1, m1)
  {
    if h1 != "" && h2 != "" {
      PresentCollideIff(h1, m1, h2, m2);
    }
  }

  /** A missing tenant and a model with a slash, against that tenant and the rest. */
  lemma MissingTenantCollides(r1: Request, r2: Request)
    requires r1.tenant == "" && r1.model == "acme/foo" && r2.tenant == "acme" && r2.model == "foo"
    ensures BuildKey(r1, "tenant/model") == BuildKey(r2, "tenant/model")
  {
    assert "acme" + "/" + "foo" == "acme/foo";
  }

  // ---------------------------------------------------------------------
  // What each accepted form depends on
  // ---------------------------------------------------------------------

  /** Exactly the three fixed forms and `header:` with a name, alone or before "/model", are accepted. */
  lemma {:induction false} AcceptedIff(hashOn: string)
    ensures Accepted(hashOn) <==>
              || hashOn in {"model", "tenant", "tenant/model"}
              || (exists name :: name != "" && hashOn == HEADER + name + SUFFIX)
              || (exists name :: name != "" && hashOn == HEADER + name && !HasSuffix(name, SUFFIX))
    ensures !Accepted("") && !Accepted("header:") && !Accepted("header:/model") && !Accepted("headers")
  {
    if HEADER <= hashOn {
      var spec, name := TrimPrefix(hashOn, HEADER), ValidatedName(hashOn);
      assert hashOn == HEADER + spec;
      if HasSuffix(spec, SUFFIX) {
        assert spec == name + SUFFIX && hashOn == HEADER + name + SUFFIX;
      }
    }
    forall name | name != "" ensures Accepted(HEADER + name + SUFFIX) && (!HasSuffix(name, SUFFIX) ==> Accepted(HEADER + name)) {
      NameIsValidated(name);
    }
    Rejects();
  }

  lemma {:induction false} NameIsValidated(name: string)
    ensures HEADER <= HEADER + name + SUFFIX && ValidatedName(HEADER + name + SUFFIX) == name
    ensures HEADER <= HEADER + name && (!HasSuffix(name, SUFFIX) ==> ValidatedName(HEADER + name) == name)
  {
    var whole := HEADER + name + SUFFIX;
    assert whole[|HEADER|..] == name + SUFFIX;
    assert (HEADER + name)[|HEADER|..] == name;
  }

  lemma {:induction false} Rejects()
    ensures !Accepted("") && !Accepted("header:") && !Accepted("header:/model") && !Accepted("headers")
  {
    assert "header:/model" == HEADER + SUFFIX;
    assert TrimPrefix("header:/model", HEADER) == SUFFIX;
    assert TrimPrefix("header:", HEADER) == "";
    assert HEADER[6] == ':' && "headers"[6] == 's';
  }

  /** Under `model` the model alone counts. */
  lemma {:induction false} ModelKeyIff(r1: Request, r2: Request)
    ensures BuildKey(r1, "model") == BuildKey(r2, "model") <==> r1.model == r2.model
    ensures BuildKey(r1, "model") == "" <==> r1.model == ""
  {
  }

  /** Under `tenant` the tenant alone counts. */
  lemma {:induction false} TenantKeyIff(r1: Request, r2: Request)
    ensures BuildKey(r1, "tenant") == BuildKey(r2, "tenant") <==> r1.tenant == r2.tenant
    ensures BuildKey(r1, "tenant") == "" <==> r1.tenant == ""
  {
  }

  /** Under `header:<name>` that one header alone counts. */
  lemma {:induction false} HeaderKeyIff(r1: Request, r2: Request, name: string)
    requires name != "" && '/' !in name
    ensures Accepted(HEADER + name)
    ensures BuildKey(r1, HEADER + name) == BuildKey(r2, HEADER + name) <==> r1.header(name) == r2.header(name)
    ensures BuildKey(r1, HEADER + name) == "" <==> r1.header(name) == ""
  {
    NameIsValidated(name);
    assert HasSuffix(name, SUFFIX) ==> name[|name| - |SUFFIX|..][0] == '/';
    assert TrimPrefix(HEADER + name, HEADER) == name;
    SlashUnique(name, |name|);
    assert name[..|name|] == name;
    assert (HEADER + name)[0] == 'h' && "model"[0] == 'm' && "tenant"[0] == 't' && "tenant/model"[0] == 't';
  }

  /** With a slash in the name it is the header before the first slash that counts, and the rest is ignored. */
  lemma {:induction false} SlashedHeaderKeyIff(r1: Request, r2: Request, name: string, rest: string)
    requires '/' !in name && rest != "model"
    ensures BuildKey(r1, HEADER + name + "/" + rest) == BuildKey(r2, HEADER + name + "/" + rest) <==> r1.header(name) == r2.header(name)
  {
    var spec := name + "/" + rest;
    assert HEADER + name + "/" + rest == HEADER + spec;
    assert TrimPrefix(HEADER + spec, HEADER) == spec;
    SlashUnique(spec, |name|);
    assert spec[..|name|] == name && spec[|name| + 1..] == rest;
    assert (HEADER + spec)[0] == 'h' && "model"[0] == 'm' && "tenant"[0] == 't' && "tenant/model"[0] == 't';
  }

  /** What the composite forms put in front of the model. */
  ghost function Qualifier(r: Request, hashOn: string): Option<string> {
    if hashOn == "tenant/model" then Some(r.tenant)
    else if Accepted(hashOn) && HEADER <= hashOn && HasSuffix(hashOn, SUFFIX) then Some(r.header(ValidatedName(hashOn)))
    else None
  }

  lemma {:induction false} CompositeKeyIs(r: Request, hashOn: string)
    requires Qualifier(r, hashOn).Some? && (HEADER <= hashOn ==> '/' !in ValidatedName(hashOn))
    ensures BuildKey(r, hashOn) == Joined(Qualifier(r, hashOn).value, r.model)
  {
    if hashOn != "tenant/model" {
      var spec, name := TrimPrefix(hashOn, HEADER), ValidatedName(hashOn);
      assert hashOn[0] == 'h' && "model"[0] == 'm' && "tenant"[0] == 't';
      assert |spec| >= |SUFFIX| by { LongEnough(hashOn); }
      assert HasSuffix(spec, SUFFIX) by { assert spec[|spec| - |SUFFIX|..] == hashOn[|hashOn| - |SUFFIX|..]; }
      NamesAgreeIffNoSlash(hashOn);
    }
  }

  lemma {:induction false} LongEnough(hashOn: string)
    requires HEADER <= hashOn && HasSuffix(hashOn, SUFFIX)
    ensures |hashOn| >= |HEADER| + |SUFFIX|
  {
    var at := |hashOn| - |SUFFIX|;
    assert ':' !in SUFFIX && hashOn[6] == HEADER[6] == ':';
    assert forall k :: at <= k < |hashOn| ==> hashOn[k] == hashOn[at..][k - at] == SUFFIX[k - at];
  }

  /** In every composite form with a slash-free header name, two requests share a key exactly for equal parts and where one absorbs the other. */
  lemma {:induction false} CompositeKeysCollideIff(r1: Request, r2: Request, hashOn: string, q1: string, q2: string)
    requires Qualifier(r1, hashOn) == Some(q1) && Qualifier(r2, hashOn) == Some(q2) && (HEADER <= hashOn ==> '/' !in ValidatedName(hashOn))
    ensures BuildKey(r1, hashOn) == BuildKey(r2, hashOn) <==>
              (q1 == q2 && r1.model == r2.model) || Absorbs(q1, r1.model, q2, r2.model) || Absorbs(q2, r2.model, q1, r1.model)
  {
    CompositeKeyIs(r1, hashOn);
    CompositeKeyIs(r2, hashOn);
    KeysCollideIff(q1, r1.model, q2, r2.model);
  }

  /** So in every such form slash-free qualifiers make equal keys mean equal qualifier and equal model. */
  lemma {:induction false} SlashFreeKeysFaithful(r1: Request, r2: Request, hashOn: string, q1: string, q2: string)
    requires Qualifier(r1, hashOn) == Some(q1) && Qualifier(r2, hashOn) == Some(q2) && (HEADER <= hashOn ==> '/' !in ValidatedName(hashOn))
    requires q1 != "" && q2 != "" && '/' !in q1 && '/' !in q2
    ensures BuildKey(r1, hashOn) == BuildKey(r2, hashOn) <==> q1 == q2 && r1.model == r2.model
  {
    CompositeKeysCollideIff(r1, r2, hashOn, q1, q2);
  }
}
