/**
 * lib/util.mjs: the request-id generator, the IQ stanza builder and the
 * decoder for the hub's `key=value:key=value` payloads.
 */
module Util {
  import opened Wrappers
  import opened Strings
  import opened Xmpp

  /** Request ids are drawn from `0 .. IdSpace - 1`. */
  const IdSpace: nat := 1000000

  /**
   * getUniqueId: `Math.floor(Math.random() * 1000000)`, with the draw of
   * `Math.random` (a real in `[0, 1)`) passed in.
   */
  function UniqueId(random: real): (id: nat)
    requires 0.0 <= random < 1.0
    ensures id < IdSpace
    ensures id as real <= random * IdSpace as real < id as real + 1.0
  {
    (random * 1000000.0).Floor
  }

  /**
   * buildIqStanza(type, xmlns, mime, body, from): a stanza of the given
   * type, sender, namespace and body under a fresh id. The `mime` argument is
   * accepted and never used.
   */
  function BuildIqStanza(kind: string, xmlns: string, mime: string, body: Option<string>,
                         from: Option<string>, random: real): (iq: IqStanza)
    requires 0.0 <= random < 1.0
    ensures iq.kind == kind && iq.from == from && iq.xmlns == xmlns && iq.body == body
    ensures iq.id < IdSpace
  {
    IqStanza(kind, from, UniqueId(random), xmlns, body)
  }

  /** Whatever `mime` is, the same stanza is built. */
  lemma BuildIqStanzaIgnoresMime(kind: string, xmlns: string, mime1: string, mime2: string,
                                 body: Option<string>, from: Option<string>, random: real)
    requires 0.0 <= random < 1.0
    ensures BuildIqStanza(kind, xmlns, mime1, body, from, random)
         == BuildIqStanza(kind, xmlns, mime2, body, from, random)
  {
  }

  // ---------------------------------------------------------------------------
  // decodeColonSeparatedResponse

  /** A `:`-separated segment is kept when splitting it on `=` gives exactly two parts. */
  predicate IsPair(segment: string)
  {
    |Split(segment, '=')| == 2
  }

  function KeyOf(segment: string): string
    requires IsPair(segment)
  {
    Split(segment, '=')[0]
  }

  function ValueOf(segment: string): string
    requires IsPair(segment)
  {
    Split(segment, '=')[1]
  }

  /**
   * `__proto__` names the prototype accessor of a plain object: assigning a
   * string to it is ignored, so a segment with that key never shows up.
   */
  const ProtoKey: string := "__proto__"

  /** `result[key] = value` on a plain object holding string properties. */
  function Assign(fields: map<string, string>, key: string, value: string): map<string, string>
  {
    if key == ProtoKey then fields else fields[key := value]
  }

  /** The object built by assigning every kept segment in turn, from the first to the last. */
  function DecodeSegments(segments: seq<string>): (fields: map<string, string>)
    ensures ProtoKey !in fields
  {
    if segments == [] then map[]
    else
      var fields := DecodeSegments(segments[..|segments| - 1]);
      var segment := segments[|segments| - 1];
      if IsPair(segment) then Assign(fields, KeyOf(segment), ValueOf(segment)) else fields
  }

  /**
   * What decodeColonSeparatedResponse returns: `undefined` (`None`) for an
   * absent, non-string or empty response, otherwise the decoded segments of
   * its `:`-split. `None` as input stands for every non-string value.
   */
  function Decode(response: Option<string>): (result: Option<map<string, string>>)
    ensures result.None? <==> response.None? || response.value == ""
    ensures result.Some? ==> ProtoKey !in result.value
  {
    if response.Some? && response.value != "" then Some(DecodeSegments(Split(response.value, ':')))
    else None
  }

  /** decodeColonSeparatedResponse: fills a fresh object segment by segment. */
  method DecodeColonSeparatedResponse(response: Option<string>) returns (result: Option<map<string, string>>)
    ensures result.None? <==> response.None? || response.value == ""
    ensures result == Decode(response)
  {
    result := None;
    if response.Some? && response.value != "" {
      var pairs := Split(response.value, ':');
      var fields: map<string, string> := map[];
      var i := 0;
      while i < |pairs|
        invariant 0 <= i <= |pairs|
        invariant fields == DecodeSegments(pairs[..i])
      {
        var keyValue := Split(pairs[i], '=');
        if |keyValue| == 2 {
          fields := Assign(fields, keyValue[0], keyValue[1]);
        }
        assert pairs[..i + 1][..i] == pairs[..i];
        i := i + 1;
      }
      assert pairs[..i] == pairs;
      result := Some(fields);
    }
  }

  /** A segment is kept exactly when it holds a single `=`. */
  lemma IsPairIffOneEquals(segment: string)
    ensures IsPair(segment) <==> Count(segment, '=') == 1
  {
    SplitLength(segment, '=');
  }

  /**
   * A key is decoded exactly when some kept segment carries it (and it is
   * not `__proto__`).
   */
  lemma {:induction false} DecodedKeys(segments: seq<string>, key: string)
    ensures key in DecodeSegments(segments) <==>
            key != ProtoKey && exists i :: 0 <= i < |segments| && IsPair(segments[i]) && KeyOf(segments[i]) == key
  {
    if segments != [] {
      var n := |segments| - 1;
      DecodedKeys(segments[..n], key);
      if key in DecodeSegments(segments) && !(IsPair(segments[n]) && KeyOf(segments[n]) == key) {
        var i :| 0 <= i < n && IsPair(segments[..n][i]) && KeyOf(segments[..n][i]) == key;
        assert segments[i] == segments[..n][i];
      }
      if key != ProtoKey && exists i :: 0 <= i < |segments| && IsPair(segments[i]) && KeyOf(segments[i]) == key {
        var i :| 0 <= i < |segments| && IsPair(segments[i]) && KeyOf(segments[i]) == key;
        if i < n {
          assert segments[..n][i] == segments[i];
        }
      }
    }
  }

  /** A repeated key takes the value of its last kept segment. */
  lemma {:induction false} LastPairWins(segments: seq<string>, i: nat)
    requires i < |segments| && IsPair(segments[i]) && KeyOf(segments[i]) != ProtoKey
    requires forall j :: i < j < |segments| && IsPair(segments[j]) ==> KeyOf(segments[j]) != KeyOf(segments[i])
    ensures KeyOf(segments[i]) in DecodeSegments(segments)
    ensures DecodeSegments(segments)[KeyOf(segments[i])] == ValueOf(segments[i])
  {
    var n := |segments| - 1;
    if i < n {
      assert segments[..n][i] == segments[i];
      forall j | i < j < n && IsPair(segments[..n][j])
        ensures KeyOf(segments[..n][j]) != KeyOf(segments[..n][i])
      {
        assert segments[..n][j] == segments[j];
      }
      LastPairWins(segments[..n], i);
    }
  }

  /** Decoded keys and values contain neither delimiter. */
  lemma {:induction false} DecodedFieldsHaveNoDelimiters(segments: seq<string>)
    requires forall i :: 0 <= i < |segments| ==> ':' !in segments[i]
    ensures forall key :: key in DecodeSegments(segments) ==>
              ':' !in key && '=' !in key && ':' !in DecodeSegments(segments)[key] && '=' !in DecodeSegments(segments)[key]
  {
    if segments != [] {
      var n := |segments| - 1;
      DecodedFieldsHaveNoDelimiters(segments[..n]);
      var segment := segments[n];
      if IsPair(segment) {
        var parts := Split(segment, '=');
        JoinSplit(segment, '=');
        assert segment == parts[0] + ['='] + parts[1];
      }
    }
  }

  /** No key or value of a decoded response contains `:` or `=`. */
  lemma DecodeHasNoDelimiters(response: string)
    requires Decode(Some(response)).Some?
    ensures forall key :: key in Decode(Some(response)).value ==>
              var value := Decode(Some(response)).value[key];
              ':' !in key && '=' !in key && ':' !in value && '=' !in value
  {
    DecodedFieldsHaveNoDelimiters(Split(response, ':'));
  }

  // ---------------------------------------------------------------------------
  // Encoding `key=value` pairs, the form the client writes request bodies in

  function PairTexts(pairs: seq<(string, string)>): (texts: seq<string>)
    ensures |texts| == |pairs|
  {
    seq(|pairs|, i requires 0 <= i < |pairs| => pairs[i].0 + "=" + pairs[i].1)
  }

  /** `k1=v1:k2=v2:...` */
  function EncodeFields(pairs: seq<(string, string)>): string
  {
    Join(PairTexts(pairs), ':')
  }

  /** Pairs whose keys and values are free of both delimiters, with no `__proto__` key. */
  predicate Encodable(pairs: seq<(string, string)>)
  {
    forall i :: 0 <= i < |pairs| ==>
      ':' !in pairs[i].0 && '=' !in pairs[i].0 && ':' !in pairs[i].1 && '=' !in pairs[i].1 && pairs[i].0 != ProtoKey
  }

  predicate DistinctKeys(pairs: seq<(string, string)>)
  {
    forall i, j :: 0 <= i < j < |pairs| ==> pairs[i].0 != pairs[j].0
  }

  lemma SplitPair(key: string, value: string)
    requires '=' !in key && '=' !in value
    ensures Split(key + "=" + value, '=') == [key, value]
  {
    SplitAtFirst(key, value, '=');
  }

  lemma PairTextsSnoc(pairs: seq<(string, string)>)
    requires |pairs| > 0
    ensures PairTexts(pairs) == PairTexts(pairs[..|pairs| - 1]) + [pairs[|pairs| - 1].0 + "=" + pairs[|pairs| - 1].1]
  {
  }

  /** Decoding the segments of delimiter-free pairs with distinct keys yields exactly those pairs. */
  lemma DecodePairTexts(pairs: seq<(string, string)>)
    requires Encodable(pairs) && DistinctKeys(pairs)
    ensures forall k :: k in DecodeSegments(PairTexts(pairs)) <==> exists i :: 0 <= i < |pairs| && pairs[i].0 == k
    ensures forall i :: 0 <= i < |pairs| ==> DecodeSegments(PairTexts(pairs))[pairs[i].0] == pairs[i].1
  {
    DecodePairTextsKeys(pairs);
    DecodePairTextsValues(pairs);
  }

  /** Encodable and DistinctKeys hold of every prefix. */
  lemma PrefixEncodable(pairs: seq<(string, string)>, n: nat)
    requires Encodable(pairs) && DistinctKeys(pairs) && n <= |pairs|
    ensures Encodable(pairs[..n]) && DistinctKeys(pairs[..n])
  {
    assert forall i :: 0 <= i < n ==> pairs[..n][i] == pairs[i];
  }

  /** Peeling the last pair off: its segment is assigned last. */
  lemma DecodePairTextsSnoc(pairs: seq<(string, string)>)
    requires Encodable(pairs) && |pairs| > 0
    ensures var n := |pairs| - 1;
            DecodeSegments(PairTexts(pairs)) == DecodeSegments(PairTexts(pairs[..n]))[pairs[n].0 := pairs[n].1]
  {
    var n := |pairs| - 1;
    PairTextsSnoc(pairs);
    DecodeSegmentsSnocPair(PairTexts(pairs[..n]), pairs[n].0, pairs[n].1);
  }

  lemma {:induction false} DecodePairTextsKeys(pairs: seq<(string, string)>)
    requires Encodable(pairs) && DistinctKeys(pairs)
    ensures forall k :: k in DecodeSegments(PairTexts(pairs)) <==> exists i :: 0 <= i < |pairs| && pairs[i].0 == k
  {
    if pairs != [] {
      var n := |pairs| - 1;
      var prefix := pairs[..n];
      PrefixEncodable(pairs, n);
      DecodePairTextsKeys(prefix);
      DecodePairTextsSnoc(pairs);
      forall k ensures k in DecodeSegments(PairTexts(pairs)) <==> exists i :: 0 <= i < |pairs| && pairs[i].0 == k {
        if k != pairs[n].0 && k in DecodeSegments(PairTexts(prefix)) {
          var i :| 0 <= i < n && prefix[i].0 == k;
          assert pairs[i].0 == k;
        }
        if k != pairs[n].0 && exists i :: 0 <= i < |pairs| && pairs[i].0 == k {
          var i :| 0 <= i < |pairs| && pairs[i].0 == k;
          assert prefix[i].0 == k;
        }
      }
    }
  }

  lemma {:induction false} DecodePairTextsValues(pairs: seq<(string, string)>)
    requires Encodable(pairs) && DistinctKeys(pairs)
    ensures forall i :: 0 <= i < |pairs| ==> pairs[i].0 in DecodeSegments(PairTexts(pairs))
    ensures forall i :: 0 <= i < |pairs| ==> DecodeSegments(PairTexts(pairs))[pairs[i].0] == pairs[i].1
  {
    if pairs != [] {
      var n := |pairs| - 1;
      var prefix := pairs[..n];
      PrefixEncodable(pairs, n);
      DecodePairTextsValues(prefix);
      DecodePairTextsSnoc(pairs);
      forall i | 0 <= i < n
        ensures pairs[i].0 in DecodeSegments(PairTexts(pairs))
        ensures DecodeSegments(PairTexts(pairs))[pairs[i].0] == pairs[i].1
      {
        assert prefix[i] == pairs[i];
      }
    }
  }

  /**
   * Round trip: encoding a non-empty list of pairs with distinct,
   * delimiter-free keys and values and decoding the text gives exactly those
   * pairs back.
   */
  lemma DecodeEncodeFields(pairs: seq<(string, string)>)
    requires |pairs| >= 1 && Encodable(pairs) && DistinctKeys(pairs)
    ensures Decode(Some(EncodeFields(pairs))).Some?
    ensures var fields := Decode(Some(EncodeFields(pairs))).value;
            (forall k :: k in fields <==> exists i :: 0 <= i < |pairs| && pairs[i].0 == k) &&
            (forall i :: 0 <= i < |pairs| ==> fields[pairs[i].0] == pairs[i].1)
  {
    var texts := PairTexts(pairs);
    assert texts[0] == pairs[0].0 + "=" + pairs[0].1;
    JoinStartsWithFirst(texts, ':');
    SplitJoin(texts, ':');
    DecodePairTexts(pairs);
  }

  /** Appending one `key=value` segment assigns that key last. */
  lemma DecodeSegmentsSnocPair(segments: seq<string>, key: string, value: string)
    requires '=' !in key && '=' !in value
    ensures DecodeSegments(segments + [key + "=" + value]) == Assign(DecodeSegments(segments), key, value)
  {
    SplitPair(key, value);
    assert (segments + [key + "=" + value])[..|segments|] == segments;
  }

  /** A lone `key=value` response decodes to that one field. */
  lemma DecodeSinglePair(key: string, value: string)
    requires ':' !in key && '=' !in key && ':' !in value && '=' !in value && key != ProtoKey
    ensures Decode(Some(key + "=" + value)) == Some(map[key := value])
  {
    var segment := key + "=" + value;
    assert segment[|key|] == '=';
    assert ':' !in segment;
    DecodeSegmentsSnocPair([], key, value);
    assert [] + [segment] == [segment];
  }

  /** A `key=value:key=value` response decodes to its two fields, the second assigned last. */
  lemma DecodeTwoPairs(key1: string, value1: string, key2: string, value2: string)
    requires ':' !in key1 && '=' !in key1 && ':' !in value1 && '=' !in value1 && key1 != ProtoKey
    requires ':' !in key2 && '=' !in key2 && ':' !in value2 && '=' !in value2 && key2 != ProtoKey
    ensures Decode(Some((key1 + "=" + value1) + [':'] + (key2 + "=" + value2)))
         == Some(map[key1 := value1, key2 := value2])
  {
    var first := key1 + "=" + value1;
    var second := key2 + "=" + value2;
    assert ':' !in first && ':' !in second;
    SplitAtFirst(first, second, ':');
    DecodeSegmentsSnocPair([], key1, value1);
    assert [] + [first] == [first];
    DecodeSegmentsSnocPair([first], key2, value2);
    assert [first] + [second] == [first, second];
  }

  /** Empty keys and empty values are kept: `"k="` and `"=v"` each decode to one field. */
  lemma EmptyKeyOrValueKept()
    ensures Decode(Some("k=")) == Some(map["k" := ""])
    ensures Decode(Some("=v")) == Some(map["" := "v"])
  {
    DecodeSinglePair("k", "");
    assert "k" + "=" + "" == "k=";
    DecodeSinglePair("", "v");
    assert "" + "=" + "v" == "=v";
  }
}
