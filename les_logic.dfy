/**
 The LES/CEML functions of the demo: the entropy estimate, the signature
 compressor, the redundancy detector and the request generator. The
 TypeScript port (utils/lesLogic.ts) and the Python original (App.py) share
 these definitions; where the two differ (the entropy of the empty text) both
 behaviours are given.
 */
module LesLogic {
  import opened Text

  datatype Option<T> = None | Some(value: T)

  /** Cost of one request under the basic policy. */
  const EnergyPerRequest: nat := 10
  /** How many times the list of base templates is repeated. */
  const TotalRequestsBatchSize: nat := 250

  const BaseRequests: seq<string> := [
    "Optimiser qubit avec spin-locking et kuramoto fc-496",
    "FC-496 protocole pour data center quantique craid",
    "CEML compression pour réduire entropie cognitive les",
    "Générer architecture low-power avec Lichen-OS qubit"
  ]

  /** The motifs counted by the entropy estimate, in order. */
  const Motifs: seq<string> := ["qubit", "spin", "kuramoto", "fc-496", "craid"]
  /** The keywords looked for by the compressor, in order. */
  const Keywords: seq<string> := ["qubit", "spin", "fc-496"]

  /** Lower bound put under every raw probability (1e-10). */
  const ProbabilityFloor: real := 0.0000000001
  /** Above this entropy the compressor takes the `COMP_` branch. */
  const CompressionThreshold: real := 0.7
  /** The fixed entropy at which the detector computes signatures. */
  const DetectionEntropy: real := 0.5

  // ---------------------------------------------------------------------------
  // Entropy estimate
  // ---------------------------------------------------------------------------

  function Sum(p: seq<real>): real
  {
    if p == [] then 0.0 else p[0] + Sum(p[1..])
  }

  /** Occurrence count of each motif divided by the length of the original text. */
  function Frequencies(lower: string, n: nat, motifs: seq<string>): (p: seq<real>)
    requires n > 0
    ensures |p| == |motifs|
    ensures forall i :: 0 <= i < |p| ==> p[i] == CountOccurrences(lower, motifs[i]) as real / n as real
  {
    if motifs == [] then []
    else [CountOccurrences(lower, motifs[0]) as real / n as real] + Frequencies(lower, n, motifs[1..])
  }

  /** Raises every value to at least the floor. */
  function FloorAll(p: seq<real>): (q: seq<real>)
    ensures |q| == |p|
    ensures forall i :: 0 <= i < |q| ==> q[i] >= ProbabilityFloor && q[i] >= p[i]
    ensures forall i :: 0 <= i < |q| ==> q[i] == p[i] || q[i] == ProbabilityFloor
  {
    if p == [] then []
    else [if p[0] >= ProbabilityFloor then p[0] else ProbabilityFloor] + FloorAll(p[1..])
  }

  /** Divides every value by `s`. */
  function Scale(p: seq<real>, s: real): (q: seq<real>)
    requires s != 0.0
    ensures |q| == |p|
    ensures forall i :: 0 <= i < |q| ==> q[i] == p[i] / s
  {
    if p == [] then [] else [p[0] / s] + Scale(p[1..], s)
  }

  /** Sum of x * log2(x) over the positive entries, for a given base-2 logarithm. */
  function WeightedLogSum(p: seq<real>, log2: real -> real): real
  {
    if p == [] then 0.0
    else (if p[0] > 0.0 then p[0] * log2(p[0]) else 0.0) + WeightedLogSum(p[1..], log2)
  }

  lemma {:induction false} SumOfScaled(p: seq<real>, s: real)
    requires s != 0.0
    ensures Sum(Scale(p, s)) == Sum(p) / s
  {
    if p != [] {
      SumOfScaled(p[1..], s);
      assert Scale(p, s)[1..] == Scale(p[1..], s);
      calc {
        Sum(Scale(p, s));
        p[0] / s + Sum(p[1..]) / s;
        (p[0] + Sum(p[1..])) / s;
      }
    }
  }

  /**
   The renormalised motif distribution of a non-empty text: five strictly
   positive values summing to 1, so the `x > 0` guard of the entropy sum
   always holds.
   */
  function Distribution(text: string): (p: seq<real>)
    requires |text| > 0
    ensures |p| == |Motifs|
    ensures forall i :: 0 <= i < |p| ==> 0.0 < p[i] <= 1.0
    ensures Sum(p) == 1.0
  {
    var q := FloorAll(Frequencies(Lower(text), |text|, Motifs));
    NormalisedFacts(q);
    Scale(q, Sum(q))
  }

  /** Dividing floored values by their sum gives positive values at most 1 that sum to 1. */
  lemma NormalisedFacts(q: seq<real>)
    requires |q| > 0
    requires forall i :: 0 <= i < |q| ==> q[i] >= ProbabilityFloor
    ensures Sum(q) > 0.0
    ensures forall i :: 0 <= i < |q| ==> 0.0 < Scale(q, Sum(q))[i] <= 1.0
    ensures Sum(Scale(q, Sum(q))) == 1.0
  {
    PositiveSum(q);
    var s := Sum(q);
    SumOfScaled(q, s);
    RatioInUnit(s, s);
    var p := Scale(q, s);
    forall i | 0 <= i < |q| ensures 0.0 < p[i] <= 1.0 {
      RatioInUnit(q[i], s);
    }
  }

  lemma RatioInUnit(x: real, s: real)
    requires 0.0 < x <= s
    ensures 0.0 < x / s <= 1.0
    ensures x == s ==> x / s == 1.0
  {
    assert x / s * s == x;
  }

  /**
   Entropy estimate of the Python original, with the base-2 logarithm as a
   parameter. The empty text has no value: the original divides by its
   length and raises a division error.
   */
  function EntropyLES(text: string, log2: real -> real): (r: Option<real>)
    ensures r.Some? <==> |text| > 0
    ensures r.Some? ==> r.value <= 1.0
  {
    if |text| == 0 then None
    else
      var h := -WeightedLogSum(Distribution(text), log2);
      Some(if h <= 1.0 then h else 1.0)
  }

  /**
   Entropy estimate of the TypeScript port. On the empty text its divisions
   give NaN, every `x > 0` test fails, the sum stays 0 and the result is
   (negative) zero.
   */
  function EntropyPort(text: string, log2: real -> real): (r: real)
    ensures r <= 1.0
    ensures |text| == 0 ==> r == 0.0
    ensures |text| > 0 ==> EntropyLES(text, log2) == Some(r)
  {
    match EntropyLES(text, log2)
    case None => 0.0
    case Some(h) => h
  }

  /** A sum of positive values is positive and at least each of them. */
  lemma {:induction false} PositiveSum(p: seq<real>)
    requires forall i :: 0 <= i < |p| ==> p[i] > 0.0
    ensures p != [] ==> Sum(p) > 0.0
    ensures forall i :: 0 <= i < |p| ==> p[i] <= Sum(p)
  {
    if p != [] {
      PositiveSum(p[1..]);
      forall i | 1 <= i < |p| ensures p[i] <= Sum(p) {
        assert p[i] == p[1..][i - 1];
      }
    }
  }

  /** With at least two positive values, each is strictly below their sum. */
  lemma EntriesBelowSum(p: seq<real>)
    requires |p| >= 2
    requires forall i :: 0 <= i < |p| ==> p[i] > 0.0
    ensures forall i :: 0 <= i < |p| ==> p[i] < Sum(p)
  {
    PositiveSum(p[1..]);
    forall i | 1 <= i < |p| ensures p[i] < Sum(p) {
      assert p[i] == p[1..][i - 1];
    }
  }

  /** Entries in (0, 1) each add a negative term when the logarithm is negative there. */
  lemma {:induction false} WeightedLogSumNegative(p: seq<real>, log2: real -> real)
    requires forall x :: 0.0 < x < 1.0 ==> log2(x) < 0.0
    requires forall i :: 0 <= i < |p| ==> 0.0 < p[i] < 1.0
    ensures WeightedLogSum(p, log2) <= 0.0
    ensures p != [] ==> WeightedLogSum(p, log2) < 0.0
  {
    if p != [] {
      WeightedLogSumNegative(p[1..], log2);
      assert log2(p[0]) < 0.0;
      assert p[0] * log2(p[0]) < 0.0;
    }
  }

  /**
   With a logarithm that is negative on (0, 1), as the base-2 logarithm is,
   the estimate of a non-empty text lies in (0, 1]: its five probabilities
   are positive and sum to 1, so each is below 1.
   */
  lemma EntropyInUnit(text: string, log2: real -> real)
    requires forall x :: 0.0 < x < 1.0 ==> log2(x) < 0.0
    requires |text| > 0
    ensures 0.0 < EntropyLES(text, log2).value <= 1.0
  {
    var p := Distribution(text);
    EntriesBelowSum(p);
    WeightedLogSumNegative(p, log2);
  }

  // ---------------------------------------------------------------------------
  // Signature compressor
  // ---------------------------------------------------------------------------

  /** The keywords of `keys` that occur in `lower`, in the order of `keys`. */
  function FoundKeywords(lower: string, keys: seq<string>): (r: seq<string>)
    ensures |r| <= |keys|
    ensures forall k :: k in r ==> k in keys && Contains(lower, k)
  {
    if keys == [] then []
    else (if Contains(lower, keys[0]) then [keys[0]] else []) + FoundKeywords(lower, keys[1..])
  }

  /** The total length of the parts. */
  function TotalLength(parts: seq<string>): nat
  {
    if parts == [] then 0 else |parts[0]| + TotalLength(parts[1..])
  }

  /** Joins the parts with `_` between them: the parts in order and one separator between each two. */
  function Join(parts: seq<string>): (r: string)
    ensures parts == [] ==> r == ""
    ensures parts != [] ==> |r| == TotalLength(parts) + |parts| - 1 && parts[0] <= r
    ensures |parts| > 1 ==> r[|parts[0]|] == '_'
  {
    if parts == [] then ""
    else if |parts| == 1 then parts[0]
    else parts[0] + "_" + Join(parts[1..])
  }

  /** The signature of `text` at the given entropy. */
  function Compress(text: string, entropy: real): (sig: string)
    ensures 4 <= |sig| <= 20
  {
    if entropy > CompressionThreshold then
      "COMP_" + Prefix(text, 5)
    else
      var found := FoundKeywords(Lower(text), Keywords);
      if |found| > 0 then
        KeywordJoinShort(Lower(text));
        Prefix(Join(found), 20)
      else
        "UNK_" + Prefix(text, 5)
  }

  function Pick(present: bool, k: string): seq<string>
  {
    if present then [k] else []
  }

  /** The filtered keyword list is one of the eight sub-lists of the keywords, in order. */
  lemma FoundKeywordsForm(lower: string)
    ensures FoundKeywords(lower, Keywords)
         == Pick(Contains(lower, "qubit"), "qubit")
          + Pick(Contains(lower, "spin"), "spin")
          + Pick(Contains(lower, "fc-496"), "fc-496")
  {
    var k1, k2 := Keywords[1..], Keywords[1..][1..];
    assert k1 == ["spin", "fc-496"] && k2 == ["fc-496"] && k2[1..] == [];
    assert FoundKeywords(lower, k2) == Pick(Contains(lower, "fc-496"), "fc-496");
    assert FoundKeywords(lower, k1) == Pick(Contains(lower, "spin"), "spin") + FoundKeywords(lower, k2);
  }

  /**
   Length and first character of a joined sub-list of the keywords: the seven
   non-empty sub-lists join to strings of seven different lengths.
   */
  lemma JoinPicked(q: bool, sp: bool, fc: bool)
    ensures var j := Join(Pick(q, "qubit") + Pick(sp, "spin") + Pick(fc, "fc-496"));
      && (q || sp || fc ==>
            |j| == (if q then 5 else 0) + (if sp then 4 else 0) + (if fc then 6 else 0)
                   + (if q then 1 else 0) + (if sp then 1 else 0) + (if fc then 1 else 0) - 1)
      && (q ==> j[0] == 'q')
      && (!q && sp ==> j[0] == 's')
      && (!q && !sp && fc ==> j[0] == 'f')
  {
    var parts := Pick(q, "qubit") + Pick(sp, "spin") + Pick(fc, "fc-496");
    if |parts| >= 2 {
      assert Join(parts) == parts[0] + "_" + Join(parts[1..]);
      if |parts| == 3 {
        assert Join(parts[1..]) == parts[1] + "_" + Join(parts[2..]);
      }
    }
  }

  /** The joined keywords are at most 17 characters, so the 20-character cut never shortens them. */
  lemma KeywordJoinShort(lower: string)
    ensures 4 <= |Join(FoundKeywords(lower, Keywords))| <= 17
            || FoundKeywords(lower, Keywords) == []
  {
    FoundKeywordsForm(lower);
    JoinPicked(Contains(lower, "qubit"), Contains(lower, "spin"), Contains(lower, "fc-496"));
  }

  /** The text contains the keyword, in the sense of a substring occurrence. */
  ghost predicate HasKeyword(lower: string, k: string)
  {
    exists i :: OccursAt(lower, k, i)
  }

  /** A keyword is found exactly when it occurs in the text. */
  lemma FoundKeywordsIff(lower: string)
    ensures forall k :: k in FoundKeywords(lower, Keywords) <==> k in Keywords && HasKeyword(lower, k)
  {
    FoundKeywordsForm(lower);
    ContainsIff(lower, "qubit");
    ContainsIff(lower, "spin");
    ContainsIff(lower, "fc-496");
    assert Keywords == ["qubit", "spin", "fc-496"];
  }

  /**
   The three forms of a signature: `COMP_` and the first five characters
   above the threshold; otherwise the keywords occurring in the lower-cased
   text, in keyword order, joined by `_` and never cut; or `UNK_` and the
   first five characters when none occurs.
   */
  lemma SignatureForms(text: string, entropy: real)
    ensures entropy > CompressionThreshold ==>
              Compress(text, entropy) == "COMP_" + text[..Min(5, |text|)]
    ensures entropy <= CompressionThreshold &&
            (forall k :: k in Keywords ==> !HasKeyword(Lower(text), k)) ==>
              Compress(text, entropy) == "UNK_" + text[..Min(5, |text|)]
    ensures entropy <= CompressionThreshold &&
            (exists k :: k in Keywords && HasKeyword(Lower(text), k)) ==>
              Compress(text, entropy) == Join(FoundKeywords(Lower(text), Keywords)) &&
              |Compress(text, entropy)| <= 17
  {
    var lower := Lower(text);
    FoundKeywordsIff(lower);
    KeywordJoinShort(lower);
    var found := FoundKeywords(lower, Keywords);
    if entropy <= CompressionThreshold && found != [] {
      assert found[0] in found;
      assert Compress(text, entropy) == Prefix(Join(found), 20);
    }
  }

  /** At or below the threshold the entropy value plays no part. */
  lemma LowEntropyIgnoresValue(text: string, entropy: real)
    requires entropy <= CompressionThreshold
    ensures Compress(text, entropy) == Compress(text, DetectionEntropy)
  {
  }

  /** The first character of a signature tells its branch: `C`, a keyword's initial, or `U`. */
  lemma SignatureInitial(text: string, entropy: real)
    ensures entropy > CompressionThreshold ==> Compress(text, entropy)[0] == 'C'
    ensures entropy <= CompressionThreshold ==> Compress(text, entropy)[0] in {'q', 's', 'f', 'U'}
  {
    var lower := Lower(text);
    FoundKeywordsForm(lower);
    JoinPicked(Contains(lower, "qubit"), Contains(lower, "spin"), Contains(lower, "fc-496"));
  }

  /** A signature made above the threshold never equals one made at the detection entropy. */
  lemma HighNeverEqualsLow(text: string, other: string, entropy: real)
    requires entropy > CompressionThreshold
    ensures Compress(text, entropy) != Compress(other, DetectionEntropy)
  {
    SignatureInitial(text, entropy);
    SignatureInitial(other, DetectionEntropy);
  }

  /** The two requests fall in the same class of the detector: same keywords, and the same first five characters when there are none. */
  ghost predicate SameKeywordClass(text: string, other: string)
  {
    var f := FoundKeywords(Lower(text), Keywords);
    f == FoundKeywords(Lower(other), Keywords) && (f == [] ==> Prefix(text, 5) == Prefix(other, 5))
  }

  /** Two low-entropy signatures are equal exactly when the texts are in the same keyword class. */
  lemma LowSignatureEqualIff(text: string, other: string)
    ensures Compress(text, DetectionEntropy) == Compress(other, DetectionEntropy)
            <==> SameKeywordClass(text, other)
  {
    var l1, l2 := Lower(text), Lower(other);
    FoundKeywordsForm(l1);
    FoundKeywordsForm(l2);
    JoinPicked(Contains(l1, "qubit"), Contains(l1, "spin"), Contains(l1, "fc-496"));
    JoinPicked(Contains(l2, "qubit"), Contains(l2, "spin"), Contains(l2, "fc-496"));
    var s1, s2 := Compress(text, DetectionEntropy), Compress(other, DetectionEntropy);
    if s1 == s2 {
      var f1, f2 := FoundKeywords(l1, Keywords), FoundKeywords(l2, Keywords);
      if f1 == [] && f2 == [] {
        assert Prefix(text, 5) == s1[4..] && Prefix(other, 5) == s2[4..];
      } else if f1 != [] && f2 != [] {
        assert |Join(f1)| == |s1| == |s2| == |Join(f2)|;
      }
    }
  }

  // ---------------------------------------------------------------------------
  // Redundancy detector
  // ---------------------------------------------------------------------------

  /**
   The request is redundant when its signature at the detection entropy is
   already known. Only a signature of the detector's own forms can match: one
   starting with a keyword's initial or `U`, never a `COMP_` one.
   */
  predicate IsRedundant(text: string, memory: set<string>): (r: bool)
    ensures r ==> exists sig :: sig in memory && |sig| >= 4 && sig[0] in {'q', 's', 'f', 'U'}
    ensures memory == {} ==> !r
  {
    SignatureInitial(text, DetectionEntropy);
    Compress(text, DetectionEntropy) in memory
  }

  /**
   Storing the signature of `other` made at a low entropy makes `text`
   redundant exactly when it was already or the two share a keyword class.
   */
  lemma StoredLowSignature(text: string, other: string, entropy: real, memory: set<string>)
    requires entropy <= CompressionThreshold
    ensures IsRedundant(text, memory + {Compress(other, entropy)})
            <==> IsRedundant(text, memory) || SameKeywordClass(text, other)
  {
    LowEntropyIgnoresValue(other, entropy);
    LowSignatureEqualIff(text, other);
  }

  /** Storing a signature made above the threshold never changes what the detector answers. */
  lemma StoredHighSignature(text: string, other: string, entropy: real, memory: set<string>)
    requires entropy > CompressionThreshold
    ensures IsRedundant(text, memory + {Compress(other, entropy)}) == IsRedundant(text, memory)
  {
    HighNeverEqualsLow(other, text, entropy);
  }

  // ---------------------------------------------------------------------------
  // Request generator
  // ---------------------------------------------------------------------------

  /** The request at global index `k`: its template, `_`, and `k` in decimal. */
  function RequestAt(k: nat): string
  {
    BaseRequests[k % |BaseRequests|] + "_" + Decimal(k)
  }

  /** Builds the list: the templates in order, repeated 250 times, each suffixed with its global index. */
  method GenerateRequests() returns (all: seq<string>)
    ensures |all| == TotalRequestsBatchSize * |BaseRequests|
    ensures forall k :: 0 <= k < |all| ==> all[k] == RequestAt(k)
  {
    all := [];
    for i := 0 to TotalRequestsBatchSize
      invariant |all| == i * |BaseRequests|
      invariant forall k :: 0 <= k < |all| ==> all[k] == RequestAt(k)
    {
      for idx := 0 to |BaseRequests|
        invariant |all| == i * |BaseRequests| + idx
        invariant forall k :: 0 <= k < |all| ==> all[k] == RequestAt(k)
      {
        var globalIndex := i * 4 + idx;
        all := all + [BaseRequests[idx] + "_" + Decimal(globalIndex)];
      }
    }
  }

  /** No two generated requests are equal: the text after the last `_` is the index, which renders distinctly. */
  lemma RequestsDistinct(j: nat, k: nat)
    requires j != k
    ensures RequestAt(j) != RequestAt(k)
  {
    if RequestAt(j) == RequestAt(k) {
      var a, c := BaseRequests[j % 4], BaseRequests[k % 4];
      SplitAtLast(a, Decimal(j), c, Decimal(k), '_');
      DecimalInjective(j, k);
    }
  }
}
