/** Bucket names (`validateBucketName`) and ARNs (`bucketARN`, the SDK's `arn.Parse`). */
module Names {
  import opened Wrappers
  import opened Characters

  // ---------------------------------------------------------------- bucket names

  predicate IsLower(c: char) { 'a' <= c <= 'z' }
  predicate LabelChar(c: char) { IsDigit(c) || IsLower(c) || c == '-' }
  predicate EastChar(c: char) { LabelChar(c) || 'A' <= c <= 'Z' || c == '.' || c == '_' }

  /** `n` groups of one to three digits joined by points, and nothing more. */
  predicate DigitGroups(n: nat, s: string)
    decreases n
  {
    if n == 0 then false
    else
      var d := LeadingDigits(s);
      1 <= d <= 3 && if n == 1 then d == |s| else d < |s| && s[d] == '.' && DigitGroups(n - 1, s[d + 1..])
  }

  function LeadingDigits(s: string): (n: nat)
    ensures n <= |s|
    ensures forall i | 0 <= i < n :: IsDigit(s[i])
    ensures n < |s| ==> !IsDigit(s[n])
  {
    if s == "" || !IsDigit(s[0]) then 0 else 1 + LeadingDigits(s[1..])
  }

  predicate HasDoubleDot(s: string) { exists i :: 0 <= i < |s| - 1 && s[i] == '.' && s[i + 1] == '.' }

  /** The checks in the order the code makes them. */
  predicate ValidBucketName(bucket: string, region: string) {
    if region != "us-east-1" then
      && !(|bucket| < 3 || |bucket| > 63)
      && (bucket != "" && forall i | 0 <= i < |bucket| :: LabelChar(bucket[i]) || bucket[i] == '.')
      && !DigitGroups(4, bucket)
      && !(bucket != "" && bucket[0] == '.')
      && !(bucket != "" && bucket[|bucket| - 1] == '.')
      && !HasDoubleDot(bucket)
    else
      && !(|bucket| > 255)
      && (bucket != "" && forall i | 0 <= i < |bucket| :: EastChar(bucket[i]))
  }

  /** The labels of a name: what lies between its points. */
  function Labels(s: string): (ls: seq<string>)
    ensures ls != []
  {
    if s == "" then [""]
    else if s[0] == '.' then [""] + Labels(s[1..])
    else
      var ls := Labels(s[1..]);
      [[s[0]] + ls[0]] + ls[1..]
  }

  predicate IsLabel(l: string) { l != "" && forall i | 0 <= i < |l| :: LabelChar(l[i]) }
  predicate IsOctet(l: string) { 1 <= |l| <= 3 && forall i | 0 <= i < |l| :: IsDigit(l[i]) }

  predicate AllLabels(ls: seq<string>) { forall i | 0 <= i < |ls| :: IsLabel(ls[i]) }
  predicate AllOctets(ls: seq<string>) { forall i | 0 <= i < |ls| :: IsOctet(ls[i]) }

  /** `s` starts a new label. */
  predicate Opens(s: string)
    decreases |s|
  {
    s != "" && LabelChar(s[0]) && Continues(s[1..])
  }

  /** `s` goes on after a character of a label. */
  predicate Continues(s: string)
    decreases |s|
  {
    s == "" || (if s[0] == '.' then Opens(s[1..]) else LabelChar(s[0]) && Continues(s[1..]))
  }

  lemma {:induction false} LabelsScan(s: string)
    ensures AllLabels(Labels(s)) <==> Opens(s)
    ensures (forall i | 0 <= i < |Labels(s)[0]| :: LabelChar(Labels(s)[0][i])) && AllLabels(Labels(s)[1..])
            <==> Continues(s)
  {
    var ls := Labels(s);
    assert AllLabels(ls) <==> IsLabel(ls[0]) && AllLabels(ls[1..]) by {
      assert ls == [ls[0]] + ls[1..];
    }
    if s != "" {
      LabelsScan(s[1..]);
      var rest := Labels(s[1..]);
      if s[0] == '.' {
        assert ls[1..] == rest;
      } else {
        assert ls[0] == [s[0]] + rest[0] && ls[1..] == rest[1..];
        assert (forall i | 0 <= i < |ls[0]| :: LabelChar(ls[0][i])) <==>
               LabelChar(s[0]) && forall i | 0 <= i < |rest[0]| :: LabelChar(rest[0][i]) by {
          assert forall i | 0 <= i < |rest[0]| :: rest[0][i] == ls[0][i + 1];
          assert ls[0][0] == s[0];
        }
      }
    }
  }

  predicate Plain(s: string) {
    && (forall i | 0 <= i < |s| :: LabelChar(s[i]) || s[i] == '.')
    && (s != "" ==> s[|s| - 1] != '.')
    && !HasDoubleDot(s)
  }

  lemma PlainStep(s: string)
    requires s != ""
    ensures Plain(s) <==> (LabelChar(s[0]) || (s[0] == '.' && |s| > 1 && s[1] != '.')) && Plain(s[1..])
  {
    var t := s[1..];
    if HasDoubleDot(t) {
      var i :| 0 <= i < |t| - 1 && t[i] == '.' && t[i + 1] == '.';
      assert s[i + 1] == '.' && s[i + 1 + 1] == '.';
    }
    if HasDoubleDot(s) && !(|s| > 1 && s[0] == '.' && s[1] == '.') {
      var i :| 0 <= i < |s| - 1 && s[i] == '.' && s[i + 1] == '.';
      assert t[i - 1] == '.' && t[i - 1 + 1] == '.';
    }
    if |s| > 1 && s[0] == '.' && s[1] == '.' {
      assert s[0] == '.' && s[0 + 1] == '.';
    }
    assert forall i | 0 <= i < |t| :: t[i] == s[i + 1];
  }

  lemma {:induction false} PlainScan(s: string)
    ensures Plain(s) && s != "" && s[0] != '.' <==> Opens(s)
    ensures Plain(s) <==> Continues(s)
  {
    if s != "" {
      PlainStep(s);
      PlainScan(s[1..]);
    }
  }

  lemma OctetsFirst(l: string, rest: seq<string>)
    ensures AllOctets([l] + rest) <==> IsOctet(l) && AllOctets(rest)
  {
    var ls := [l] + rest;
    assert ls[0] == l && forall i | 0 <= i < |rest| :: rest[i] == ls[i + 1];
    assert forall i | 0 < i < |ls| :: ls[i] == rest[i - 1];
  }

  lemma {:induction false} OctetGroups(n: nat, s: string)
    ensures DigitGroups(n, s) <==> |Labels(s)| == n && AllOctets(Labels(s))
    decreases n
  {
    var d := LeadingDigits(s);
    LabelsAfterDigits(s);
    LabelBeyondDigits(s);
    var ls := Labels(s);
    if n > 0 && d < |s| && s[d] == '.' {
      OctetGroups(n - 1, s[d + 1..]);
      var rest := Labels(s[d + 1..]);
      assert ls == [s[..d]] + rest;
      OctetsFirst(s[..d], rest);
    } else if d < |s| {
      assert !IsOctet(ls[0]) || s[d] == '.';
    }
  }

  /** Leading digits that a point or nothing follows make up the first label. */
  lemma {:induction false} LabelsAfterDigits(s: string)
    ensures var d := LeadingDigits(s);
            && (d == |s| ==> Labels(s) == [s])
            && (d < |s| && s[d] == '.' ==> Labels(s) == [s[..d]] + Labels(s[d + 1..]))
  {
    var d := LeadingDigits(s);
    if d > 0 {
      var t := s[1..];
      assert LeadingDigits(t) == d - 1;
      LabelsAfterDigits(t);
      if d < |s| && s[d] == '.' {
        assert t[d..] == s[d + 1..];
        assert [s[0]] + t[..d - 1] == s[..d];
      } else if d == |s| {
        assert [s[0]] + t == s;
      }
    }
  }

  /** Otherwise the first label holds something other than digits. */
  lemma {:induction false} LabelBeyondDigits(s: string)
    ensures var d := LeadingDigits(s);
            d < |s| && s[d] != '.' ==> exists i :: 0 <= i < |Labels(s)[0]| && !IsDigit(Labels(s)[0][i])
  {
    var d := LeadingDigits(s);
    if d == 0 {
      if s != "" && s[0] != '.' { assert !IsDigit(Labels(s)[0][0]); }
    } else if d < |s| && s[d] != '.' {
      var t := s[1..];
      assert LeadingDigits(t) == d - 1;
      LabelBeyondDigits(t);
      var l := Labels(t)[0];
      var i :| 0 <= i < |l| && !IsDigit(l[i]);
      assert Labels(s)[0][i + 1] == l[i];
    }
  }

  /** Labels with points between them. */
  function Dotted(ls: seq<string>): string
    requires ls != []
  {
    if |ls| == 1 then ls[0] else ls[0] + "." + Dotted(ls[1..])
  }

  lemma DottedLonger(c: char, ls: seq<string>)
    requires ls != []
    ensures Dotted([[c] + ls[0]] + ls[1..]) == [c] + Dotted(ls)
  {
    var ms := [[c] + ls[0]] + ls[1..];
    assert ms[1..] == ls[1..];
    if |ls| > 1 { assert [c] + ls[0] + "." + Dotted(ls[1..]) == [c] + (ls[0] + "." + Dotted(ls[1..])); }
  }

  /** The labels are the one way to cut the name at its points. */
  lemma {:induction false} LabelsUndone(s: string)
    ensures Dotted(Labels(s)) == s && forall l | l in Labels(s) :: '.' !in l
  {
    var ls := Labels(s);
    if s != "" {
      LabelsUndone(s[1..]);
      var rest := Labels(s[1..]);
      assert s == [s[0]] + s[1..];
      if s[0] == '.' {
        assert ls[1..] == rest;
        assert Dotted(ls) == "" + "." + s[1..];
      } else {
        DottedLonger(s[0], rest);
        assert rest[0] in rest;
        forall l | l in ls ensures '.' !in l {
          if l != ls[0] { assert l in rest; }
        }
      }
    }
  }

  lemma LabelSpelled(l: string)
    ensures IsLabel(l) <==> l != "" && forall c | c in l :: '0' <= c <= '9' || 'a' <= c <= 'z' || c == '-'
    ensures IsOctet(l) <==> 1 <= |l| <= 3 && forall c | c in l :: '0' <= c <= '9'
  {
    forall i | 0 <= i < |l| ensures l[i] in l {}
  }

  /**
    Outside us-east-1 the checks accept exactly the names of 3 to 63 characters whose labels are
    non-empty and made of lower-case letters, digits and hyphens, except four labels of one to
    three digits each.
   */
  lemma AcceptedNames(bucket: string, region: string)
    requires region != "us-east-1"
    ensures var ls := Labels(bucket);
            ValidBucketName(bucket, region) <==>
              && 3 <= |bucket| <= 63
              && (forall i | 0 <= i < |ls| ::
                    ls[i] != "" && forall c | c in ls[i] :: '0' <= c <= '9' || 'a' <= c <= 'z' || c == '-')
              && !(|ls| == 4 && forall i | 0 <= i < 4 :: 1 <= |ls[i]| <= 3 && forall c | c in ls[i] :: '0' <= c <= '9')
  {
    LabelsScan(bucket);
    PlainScan(bucket);
    OctetGroups(4, bucket);
    var ls := Labels(bucket);
    forall i | 0 <= i < |ls|
      ensures IsLabel(ls[i]) <==>
              ls[i] != "" && forall c | c in ls[i] :: '0' <= c <= '9' || 'a' <= c <= 'z' || c == '-'
      ensures IsOctet(ls[i]) <==> 1 <= |ls[i]| <= 3 && forall c | c in ls[i] :: '0' <= c <= '9'
    {
      LabelSpelled(ls[i]);
    }
  }

  /** In us-east-1 they accept 1 to 255 letters of either case, digits, hyphens, points and underscores. */
  lemma EastNames(bucket: string)
    ensures ValidBucketName(bucket, "us-east-1") <==>
            && 1 <= |bucket| <= 255
            && forall c | c in bucket ::
                 '0' <= c <= '9' || 'a' <= c <= 'z' || 'A' <= c <= 'Z' || c == '-' || c == '.' || c == '_'
  {
    assert forall c | c in bucket :: EastChar(c) <==>
             '0' <= c <= '9' || 'a' <= c <= 'z' || 'A' <= c <= 'Z' || c == '-' || c == '.' || c == '_';
    assert (forall c | c in bucket :: EastChar(c)) <==> forall i | 0 <= i < |bucket| :: EastChar(bucket[i]);
  }

  /** us-east-1 accepts every name that some other region accepts, and one that none does. */
  lemma EastAcceptsMore(bucket: string, region: string)
    ensures ValidBucketName(bucket, region) ==> ValidBucketName(bucket, "us-east-1")
    ensures exists b :: ValidBucketName(b, "us-east-1") && forall r | r != "us-east-1" :: !ValidBucketName(b, r)
  {
    var b := "A_";
    assert ValidBucketName(b, "us-east-1");
  }

  // ---------------------------------------------------------------- ARNs

  /** The sections between the partition and the resource: service s3, no region, no account. */
  const MIDDLE := ":s3:::"

  function BucketArn(partition: string, bucket: string): (arn: string)
    ensures arn != ""
  {
    "arn:" + (partition + (MIDDLE + bucket))
  }

  /** What follows the `n`-th colon, if there are that many. */
  function AfterColons(n: nat, s: string): Option<string>
    decreases |s|
  {
    if n == 0 then Some(s)
    else if s == "" then None
    else AfterColons(if s[0] == ':' then n - 1 else n, s[1..])
  }

  /** The resource of an ARN: the text after its fifth colon; nothing when it does not parse. */
  function ArnResource(arn: string): Option<string> {
    if |arn| < 4 || arn[..4] != "arn:" then None else AfterColons(5, arn)
  }

  lemma AfterMiddle(n: nat, bucket: string)
    requires n <= 4
    ensures AfterColons(n, MIDDLE + bucket) == Some((MIDDLE + bucket)[[0, 1, 4, 5, 6][n]..])
  {
    var s := MIDDLE + bucket;
    assert s[1..][1..] == s[2..] && s[2..][1..] == s[3..] && s[3..][1..] == s[4..];
    assert s[4..][1..] == s[5..] && s[5..][1..] == s[6..];
    assert n > 1 ==> AfterColons(n - 1, s[1..]) == AfterColons(n - 1, s[3..]);
    assert n > 1 ==> AfterColons(n - 1, s[3..]) == AfterColons(n - 2, s[4..]);
    assert n > 2 ==> AfterColons(n - 2, s[4..]) == AfterColons(n - 3, s[5..]);
    assert n > 3 ==> AfterColons(n - 3, s[5..]) == AfterColons(n - 4, s[6..]);
  }

  /** Colons in front move the cut to the left of the bucket name. */
  lemma {:induction false} AfterColonsLength(n: nat, p: string, bucket: string)
    requires n <= 4
    ensures var r := AfterColons(n, p + (MIDDLE + bucket));
            && r.Some?
            && (n == 4 && ':' !in p ==> r.value == bucket)
            && |r.value| >= |bucket| + (4 - n) + (if ':' in p then 1 else 0)
    decreases |p|
  {
    var t := MIDDLE + bucket;
    if p == "" {
      assert p + t == t;
      AfterMiddle(n, bucket);
    } else if n > 0 {
      assert (p + t)[1..] == p[1..] + t;
      assert p == [p[0]] + p[1..];
      AfterColonsLength(if p[0] == ':' then n - 1 else n, p[1..], bucket);
    }
  }

  /** Parsing the printed ARN gives the bucket back exactly when the partition has no colon. */
  lemma ArnRoundTrip(partition: string, bucket: string)
    ensures ArnResource(BucketArn(partition, bucket)) == Some(bucket) <==> ':' !in partition
  {
    var arn := BucketArn(partition, bucket);
    var rest := partition + (MIDDLE + bucket);
    assert arn[1..][1..][1..][1..] == rest;
    assert AfterColons(5, arn) == AfterColons(5, arn[1..]);
    assert AfterColons(5, arn[1..]) == AfterColons(5, arn[1..][1..]);
    assert AfterColons(5, arn[1..][1..]) == AfterColons(5, arn[1..][1..][1..]);
    assert AfterColons(5, arn[1..][1..][1..]) == AfterColons(4, rest);
    AfterColonsLength(4, partition, bucket);
  }

  /** In one partition, equal ARNs mean equal buckets. */
  lemma ArnInjective(partition: string, a: string, b: string)
    requires BucketArn(partition, a) == BucketArn(partition, b)
    ensures a == b
  {
    var n := |"arn:"| + |partition| + |MIDDLE|;
    assert BucketArn(partition, a)[n..] == a && BucketArn(partition, b)[n..] == b;
  }

  /** The ARN of a bucket, spelled out. */
  lemma ArnSpelled(partition: string, bucket: string)
    ensures BucketArn(partition, bucket) == "arn:" + partition + ":s3:::" + bucket
  {
    assert "arn:" + partition + ":s3:::" + bucket == "arn:" + (partition + (":s3:::" + bucket));
  }

  /** The number of colons in a text. */
  function Colons(s: string): nat { if s == "" then 0 else (if s[0] == ':' then 1 else 0) + Colons(s[1..]) }

  lemma {:induction false} CutAtColon(n: nat, s: string)
    requires n > 0
    ensures AfterColons(n, s).None? <==> Colons(s) < n
    ensures AfterColons(n, s).Some? ==>
              var i := |s| - |AfterColons(n, s).value|;
              0 < i && s[i - 1] == ':' && Colons(s[..i]) == n && s[i..] == AfterColons(n, s).value
    decreases |s|
  {
    if s != "" {
      var m := if s[0] == ':' then n - 1 else n;
      if m == 0 {
        assert s[..1][1..] == "";
      } else {
        CutAtColon(m, s[1..]);
        if AfterColons(n, s).Some? {
          var i := |s| - |AfterColons(n, s).value|;
          assert s[..i][1..] == s[1..][..i - 1];
        }
      }
    }
  }

  /** An ARN parses if it starts with `arn:` and has five colons at least; its resource follows the fifth. */
  lemma ArnParsed(arn: string)
    ensures ArnResource(arn).Some? <==> "arn:" <= arn && Colons(arn) >= 5
    ensures ArnResource(arn).Some? ==>
              var i := |arn| - |ArnResource(arn).value|;
              0 < i && arn[i - 1] == ':' && Colons(arn[..i]) == 5 && arn[i..] == ArnResource(arn).value
  {
    CutAtColon(5, arn);
  }
}
