/**
  `Redactor.redact_email`: split on the first `@`, blank every letter of the
  local part, keep its digits and punctuation, keep the domain.
 */
module Email {
  import opened Text
  import opened Spans

  /** The local part with each letter replaced by the block character. */
  function MaskLetters(local: string): (r: string)
    ensures |r| == |local|
  {
    seq(|local|, i requires 0 <= i < |local| => if IsAlpha(local[i]) then Block else local[i])
  }

  /** The local part of an address: everything before its first `@`. */
  function LocalPart(email: string): string {
    email[..FindChar(email, '@')]
  }

  function RedactEmail(email: string): (r: string)
    ensures |r| == |email|
    ensures '@' !in email ==> r == email
    ensures '@' in email ==>
              var k := FindChar(email, '@');
              && r[k..] == email[k..]
              && forall i :: 0 <= i < k ==> (IsAlpha(email[i]) ==> r[i] == Block) && (!IsAlpha(email[i]) ==> r[i] == email[i])
  {
    if '@' !in email then email
    else
      var k := FindChar(email, '@');
      var local, domain := email[..k], email[k + 1..];
      var r := MaskLetters(local) + "@" + domain;
      assert r[k..] == "@" + domain;
      assert email[k..] == "@" + domain;
      r
  }

  /** Redaction changes an address exactly when its local part holds a letter. */
  lemma RedactEmailChanges(email: string)
    ensures RedactEmail(email) != email <==>
              '@' in email && exists i :: 0 <= i < |LocalPart(email)| && IsAlpha(LocalPart(email)[i])
  {
    var r := RedactEmail(email);
    var k := FindChar(email, '@');
    var local := LocalPart(email);
    assert |local| == k && forall i :: 0 <= i < k ==> local[i] == email[i];
    if '@' in email && exists i :: 0 <= i < k && IsAlpha(email[i]) {
      var i :| 0 <= i < k && IsAlpha(email[i]);
      assert r[i] == Block;
      assert email[i] != Block;
      assert IsAlpha(local[i]);
    } else if '@' in email {
      assert r == email by {
        assert r[..k] == email[..k];
        assert r == r[..k] + r[k..];
        assert email == email[..k] + email[k..];
      }
    }
  }

  /** Redacting an already redacted address changes nothing. */
  lemma RedactEmailIdempotent(email: string)
    ensures RedactEmail(RedactEmail(email)) == RedactEmail(email)
  {
    var r := RedactEmail(email);
    if '@' in email {
      var k := FindChar(email, '@');
      assert r[k] == '@';
      assert forall j :: 0 <= j < k ==> r[j] != '@';
      assert FindChar(r, '@') == k;
      assert '@' in r;
      var rr := RedactEmail(r);
      assert forall j :: 0 <= j < k ==> rr[j] == r[j];
      assert rr[k..] == r[k..];
      assert rr == rr[..k] + rr[k..];
      assert r == r[..k] + r[k..];
    }
  }

  /** An input without `@` comes back unchanged. */
  lemma RedactEmailNoAt(email: string)
    requires '@' !in email
    ensures RedactEmail(email) == email
  {
  }

  /** Two inputs without `@`: a dotted word and the empty string. */
  lemma RedactEmailNoAtExamples()
    ensures RedactEmail("not.an.email") == "not.an.email"
    ensures RedactEmail("") == ""
  {
    assert forall j :: 0 <= j < |"not.an.email"| ==> "not.an.email"[j] != '@';
    RedactEmailNoAt("not.an.email");
    RedactEmailNoAt("");
  }

  /** Splitting at the first `@`: the local part is masked letter by letter and the rest is kept. */
  lemma RedactEmailSplit(local: string, domain: string)
    requires '@' !in local
    ensures RedactEmail(local + "@" + domain) == MaskLetters(local) + "@" + domain
  {
    var e := local + "@" + domain;
    assert e[|local|] == '@';
    assert forall j :: 0 <= j < |local| ==> e[j] == local[j];
    assert FindChar(e, '@') == |local|;
    assert e[..|local|] == local;
    assert e[|local| + 1..] == domain;
  }

  /** The letters of a dotted name are blanked and the dot kept. */
  lemma RedactEmailDottedName(local: string, domain: string, masked: string)
    requires local == "john.smith" && domain == "company.com"
    requires masked == "\U{2588}\U{2588}\U{2588}\U{2588}.\U{2588}\U{2588}\U{2588}\U{2588}\U{2588}"
    ensures RedactEmail(local + "@" + domain) == masked + "@" + domain
  {
    MaskedExample(local, masked);
    RedactEmailSplit(local, domain);
  }

  /** Digits in the local part survive redaction. */
  lemma RedactEmailKeepsDigits(local: string, domain: string, masked: string)
    requires local == "test.user123" && domain == "domain.com"
    requires masked == "\U{2588}\U{2588}\U{2588}\U{2588}.\U{2588}\U{2588}\U{2588}\U{2588}123"
    ensures RedactEmail(local + "@" + domain) == masked + "@" + domain
  {
    MaskedExample(local, masked);
    RedactEmailSplit(local, domain);
  }

  /** A local part and its expected mask, checked character by character. */
  lemma MaskedExample(local: string, masked: string)
    requires |local| == |masked|
    requires forall i :: 0 <= i < |local| ==> masked[i] == if IsAlpha(local[i]) then Block else local[i]
    ensures MaskLetters(local) == masked
  {
  }
}
