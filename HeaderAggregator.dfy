/**
 * `DebugSymbol.get_headers`: the local headers every symbol's expression
 * needs, each once, in the order they first appear across the table.
 */
module HeaderAggregator {
  import opened Strings
  import opened DebugSymbols

  /** `sum([s.headers for s in symbols], [])`: every symbol's headers, in table order. */
  function AllHeaders(symbols: seq<DebugSymbol>): seq<string>
  {
    if |symbols| == 0 then [] else symbols[0].headers + AllHeaders(symbols[1..])
  }

  /** The headers of `s` not in `seen`, each kept at its first occurrence. */
  function DedupFrom(s: seq<string>, seen: set<string>): seq<string>
  {
    if |s| == 0 then []
    else if s[0] in seen then DedupFrom(s[1..], seen)
    else [s[0]] + DedupFrom(s[1..], seen + {s[0]})
  }

  function Dedup(s: seq<string>): seq<string>
  {
    DedupFrom(s, {})
  }

  /** A header is in the flattened list exactly when some symbol lists it. */
  lemma {:induction false} AllHeadersMembership(symbols: seq<DebugSymbol>, h: string)
    ensures h in AllHeaders(symbols) <==> exists k :: 0 <= k < |symbols| && h in symbols[k].headers
    decreases |symbols|
  {
    if |symbols| > 0 {
      AllHeadersMembership(symbols[1..], h);
      if h in AllHeaders(symbols[1..]) {
        var k :| 0 <= k < |symbols[1..]| && h in symbols[1..][k].headers;
        assert h in symbols[k + 1].headers;
      }
      if exists k :: 0 <= k < |symbols| && h in symbols[k].headers {
        var k :| 0 <= k < |symbols| && h in symbols[k].headers;
        if k > 0 {
          assert h in symbols[1..][k - 1].headers;
        }
      }
    }
  }

  /** The result holds no header twice, and holds exactly the headers of `s` not already seen. */
  lemma {:induction false} DedupFromContents(s: seq<string>, seen: set<string>)
    ensures NoDups(DedupFrom(s, seen))
    ensures forall x :: x in DedupFrom(s, seen) <==> x in s && x !in seen
    decreases |s|
  {
    if |s| > 0 {
      assert s == [s[0]] + s[1..];
      if s[0] in seen {
        DedupFromContents(s[1..], seen);
      } else {
        DedupFromContents(s[1..], seen + {s[0]});
      }
    }
  }

  /** Past the head, the first occurrence of another element moves back by one. */
  lemma FirstIndexTail(s: seq<string>, x: string)
    requires |s| > 0 && x in s[1..] && x != s[0]
    ensures x in s && FirstIndex(s, x) == 1 + FirstIndex(s[1..], x)
  {
    assert s == [s[0]] + s[1..];
  }

  /**
   * `r` draws its elements from `s` and lists them in the order of their first
   * occurrences in `s`: first indices strictly increase along `r`.
   */
  predicate FirstUseOrder(r: seq<string>, s: seq<string>)
  {
    (forall x :: x in r ==> x in s) &&
    forall i, j :: 0 <= i < j < |r| ==> FirstIndex(s, r[i]) < FirstIndex(s, r[j])
  }

  /** An ascending list that avoids the head of `s` stays ascending when the head is put back. */
  lemma FirstUseOrderShift(r: seq<string>, s: seq<string>)
    requires |s| > 0 && FirstUseOrder(r, s[1..]) && s[0] !in r
    ensures FirstUseOrder(r, s)
  {
    forall x | x in r
      ensures x in s && FirstIndex(s, x) == 1 + FirstIndex(s[1..], x)
    {
      FirstIndexTail(s, x);
    }
    forall i, j | 0 <= i < j < |r|
      ensures FirstIndex(s, r[i]) < FirstIndex(s, r[j])
    {
      assert r[i] in r && r[j] in r;
    }
  }

  /** The head of `s` occurs first, so it may lead an ascending list that avoids it. */
  lemma FirstUseOrderCons(r: seq<string>, s: seq<string>)
    requires |s| > 0 && FirstUseOrder(r, s) && s[0] !in r
    ensures FirstUseOrder([s[0]] + r, s)
  {
    var r' := [s[0]] + r;
    forall i, j | 0 <= i < j < |r'|
      ensures FirstIndex(s, r'[i]) < FirstIndex(s, r'[j])
    {
      assert r'[j] == r[j - 1] && r[j - 1] in r;
      if i > 0 {
        assert r'[i] == r[i - 1] && r[i - 1] in r;
      }
    }
  }

  /** Headers keep the order of their first occurrences in `s`. */
  lemma {:induction false} DedupFromOrder(s: seq<string>, seen: set<string>)
    ensures FirstUseOrder(DedupFrom(s, seen), s)
    decreases |s|
  {
    if |s| > 0 {
      var seen' := if s[0] in seen then seen else seen + {s[0]};
      var tail := DedupFrom(s[1..], seen');
      DedupFromOrder(s[1..], seen');
      DedupFromContents(s[1..], seen');
      assert s[0] !in tail;
      FirstUseOrderShift(tail, s);
      if s[0] !in seen {
        FirstUseOrderCons(tail, s);
      }
    }
  }

  /**
   * The three guarantees of the aggregation: no duplicates, exactly the
   * headers of `s`, and an order that agrees with first occurrence in `s`
   * in both directions.
   */
  lemma DedupProperties(s: seq<string>)
    ensures NoDups(Dedup(s))
    ensures forall x :: x in Dedup(s) <==> x in s
    ensures FirstUseOrder(Dedup(s), s)
    ensures forall i, j :: 0 <= i < |Dedup(s)| && 0 <= j < |Dedup(s)| ==>
      (i < j <==> FirstIndex(s, Dedup(s)[i]) < FirstIndex(s, Dedup(s)[j]))
  {
    DedupFromContents(s, {});
    DedupFromOrder(s, {});
    var r := Dedup(s);
    forall i, j | 0 <= i < |r| && 0 <= j < |r|
      ensures i < j <==> FirstIndex(s, r[i]) < FirstIndex(s, r[j])
    {
      if j < i {
        assert FirstIndex(s, r[j]) < FirstIndex(s, r[i]);
      }
    }
  }

  /** The guarantees of `get_headers`, stated of the table itself. */
  lemma LocalHeaders(symbols: seq<DebugSymbol>)
    ensures NoDups(Dedup(AllHeaders(symbols)))
    ensures forall h :: h in Dedup(AllHeaders(symbols)) <==> exists k :: 0 <= k < |symbols| && h in symbols[k].headers
    ensures FirstUseOrder(Dedup(AllHeaders(symbols)), AllHeaders(symbols))
  {
    DedupProperties(AllHeaders(symbols));
    forall h
      ensures h in AllHeaders(symbols) <==> exists k :: 0 <= k < |symbols| && h in symbols[k].headers
    {
      AllHeadersMembership(symbols, h);
    }
  }

  /**
   * `get_headers`: walks the flattened header lists, appending a header to
   * `result` the first time it is seen.
   */
  method GetHeaders(symbols: seq<DebugSymbol>) returns (result: seq<string>)
    ensures result == Dedup(AllHeaders(symbols))
    ensures NoDups(result)
    ensures forall h :: h in result <==> exists k :: 0 <= k < |symbols| && h in symbols[k].headers
    ensures FirstUseOrder(result, AllHeaders(symbols))
  {
    var seen: set<string> := {};
    var headers := AllHeaders(symbols);
    result := [];
    for i := 0 to |headers|
      invariant forall x :: x in seen <==> x in result
      invariant result + DedupFrom(headers[i..], seen) == Dedup(headers)
    {
      var h, rest := headers[i], headers[i + 1..];
      assert headers[i..] == [h] + rest;
      DedupStep(h, rest, seen);
      if h !in seen {
        assert result + [h] + DedupFrom(rest, seen + {h}) == result + DedupFrom(headers[i..], seen);
        seen := seen + {h};
        result := result + [h];
      }
    }
    assert headers[|headers|..] == [];
    assert result == Dedup(headers);
    LocalHeaders(symbols);
  }

  /** One step of the aggregation: the next header is kept unless it was seen. */
  lemma DedupStep(x: string, rest: seq<string>, seen: set<string>)
    ensures DedupFrom([x] + rest, seen) ==
      if x in seen then DedupFrom(rest, seen) else [x] + DedupFrom(rest, seen + {x})
  {
    assert ([x] + rest)[1..] == rest;
  }

  /** Headers `[a, b]`, `[b, c]` and `[a]` aggregate to `[a, b, c]`. */
  lemma DedupExample(a: string, b: string, c: string)
    requires a != b && b != c && a != c
    ensures Dedup([a, b] + [b, c] + [a]) == [a, b, c]
  {
    var s0 := [a, b, b, c, a];
    assert [a, b] + [b, c] + [a] == s0;
    var s1, s2, s3, s4 := [b, b, c, a], [b, c, a], [c, a], [a];
    assert s0[1..] == s1 && s1[1..] == s2 && s2[1..] == s3 && s3[1..] == s4 && s4[1..] == [];
    assert {a} + {b} == {a, b} && {a, b} + {c} == {a, b, c};
    assert DedupFrom(s4, {a, b, c}) == [];
    assert DedupFrom(s3, {a, b}) == [c];
    assert DedupFrom(s2, {a, b}) == [c];
    assert DedupFrom(s1, {a}) == [b, c];
    var none: set<string> := {};
    assert none + {a} == {a};
    assert DedupFrom(s0, none) == [a, b, c];
  }

  /** Flattening from position `k` on: the `k`-th symbol's headers, then the rest. */
  lemma AllHeadersStep(symbols: seq<DebugSymbol>, k: nat)
    requires k < |symbols|
    ensures AllHeaders(symbols[k..]) == symbols[k].headers + AllHeaders(symbols[k + 1..])
  {
    assert symbols[k..][1..] == symbols[k + 1..];
  }

  /** Flattening a table of five symbols. */
  lemma AllHeadersFive(t: seq<DebugSymbol>)
    requires |t| == 5
    ensures AllHeaders(t) == t[0].headers + (t[1].headers + (t[2].headers + (t[3].headers + t[4].headers)))
  {
    assert t[5..] == [];
    AllHeadersStep(t, 4);
    assert AllHeaders(t[4..]) == t[4].headers;
    AllHeadersStep(t, 3);
    AllHeadersStep(t, 2);
    AllHeadersStep(t, 1);
    AllHeadersStep(t, 0);
    assert t[0..] == t;
  }

  /** Flattening a concatenation of tables. */
  lemma {:induction false} AllHeadersAppend(a: seq<DebugSymbol>, b: seq<DebugSymbol>)
    ensures AllHeaders(a + b) == AllHeaders(a) + AllHeaders(b)
    decreases |a|
  {
    if |a| == 0 {
      assert a + b == b;
    } else {
      assert (a + b)[0] == a[0] && (a + b)[1..] == a[1..] + b;
      AllHeadersAppend(a[1..], b);
    }
  }

  /** Flattening a table split at position `k`. */
  lemma AllHeadersSplit(t: seq<DebugSymbol>, k: nat)
    requires k <= |t|
    ensures AllHeaders(t) == AllHeaders(t[..k]) + AllHeaders(t[k..])
  {
    assert t == t[..k] + t[k..];
    AllHeadersAppend(t[..k], t[k..]);
  }

  /** The header lists of the first five shipped symbols. */
  lemma ShippedHeadersFirstHalf()
    ensures AllHeaders(DebugSymbolsTable[..5]) == [EnvHeader, BaseObjectHeader, EnvHeader, HandleWrapHeader, EnvHeader]
  {
    var t := DebugSymbolsTable[..5];
    AllHeadersFive(t);
  }

  /** The header lists of the last five shipped symbols. */
  lemma ShippedHeadersSecondHalf()
    ensures AllHeaders(DebugSymbolsTable[5..]) == [HandleWrapHeader, UtilHeader, EnvHeader, ReqWrapHeader, EnvHeader,
      ReqWrapHeader, UtilHeader]
  {
    var t := DebugSymbolsTable[5..];
    AllHeadersFive(t);
  }

  /** The shipped table's header lists, flattened in table order. */
  lemma ShippedAllHeaders()
    ensures AllHeaders(DebugSymbolsTable) == [EnvHeader, BaseObjectHeader, EnvHeader, HandleWrapHeader, EnvHeader,
      HandleWrapHeader, UtilHeader, EnvHeader, ReqWrapHeader, EnvHeader, ReqWrapHeader, UtilHeader]
  {
    AllHeadersSplit(DebugSymbolsTable, 5);
    ShippedHeadersFirstHalf();
    ShippedHeadersSecondHalf();
  }

  /** The second half of the shipped header lists adds `util.h` and `req_wrap.h`. */
  lemma ShippedDedupTail(e: string, b: string, hw: string, u: string, rw: string)
    requires e != u && e != rw && b != u && b != rw && hw != u && hw != rw && u != rw
    ensures DedupFrom([u, e, rw, e, rw, u], {e, b, hw}) == [u, rw]
  {
    var s6 := [u, e, rw, e, rw, u];
    var s7 := [e, rw, e, rw, u];
    var s8 := [rw, e, rw, u];
    var s9 := [e, rw, u];
    var s10 := [rw, u];
    var s11 := [u];
    assert s6[1..] == s7 && s7[1..] == s8 && s8[1..] == s9 && s9[1..] == s10;
    assert s10[1..] == s11 && s11[1..] == [];
    var C, D, E := {e, b, hw}, {e, b, hw, u}, {e, b, hw, u, rw};
    assert C + {u} == D && D + {rw} == E;
    assert DedupFrom(s11, E) == [];
    assert DedupFrom(s10, E) == [];
    assert DedupFrom(s9, E) == [];
    assert DedupFrom(s8, D) == [rw];
    assert DedupFrom(s7, D) == [rw];
  }

  /** The first half of the shipped header lists adds `env.h`, `base_object-inl.h` and `handle_wrap.h`. */
  lemma ShippedDedupHead(e: string, b: string, hw: string, rest: seq<string>)
    requires e != b && e != hw && b != hw
    ensures Dedup([e, b, e, hw, e, hw] + rest) == [e, b, hw] + DedupFrom(rest, {e, b, hw})
  {
    var s5 := [hw] + rest;
    var s4 := [e] + s5;
    var s3 := [hw] + s4;
    var s2 := [e] + s3;
    var s1 := [b] + s2;
    var s0 := [e] + s1;
    assert s0 == [e, b, e, hw, e, hw] + rest;
    var A, B, C := {e}, {e, b}, {e, b, hw};
    var none: set<string> := {};
    assert none + {e} == A && A + {b} == B && B + {hw} == C;
    var tail := DedupFrom(rest, C);
    DedupStep(hw, rest, C);
    DedupStep(e, s5, C);
    assert DedupFrom(s4, C) == tail;
    DedupStep(hw, s4, B);
    DedupStep(e, s3, B);
    assert DedupFrom(s2, B) == [hw] + tail;
    DedupStep(b, s2, A);
    assert DedupFrom(s1, A) == [b] + ([hw] + tail);
    DedupStep(e, s1, none);
    assert [e] + ([b] + ([hw] + tail)) == [e, b, hw] + tail;
  }

  /** The aggregation of the shipped header lists, for any five distinct header names. */
  lemma ShippedDedup(e: string, b: string, hw: string, u: string, rw: string)
    requires e != b && e != hw && e != u && e != rw && b != hw && b != u && b != rw
    requires hw != u && hw != rw && u != rw
    ensures Dedup([e, b, e, hw, e, hw, u, e, rw, e, rw, u]) == [e, b, hw, u, rw]
  {
    assert [e, b, e, hw, e, hw, u, e, rw, e, rw, u] == [e, b, e, hw, e, hw] + [u, e, rw, e, rw, u];
    ShippedDedupHead(e, b, hw, [u, e, rw, e, rw, u]);
    ShippedDedupTail(e, b, hw, u, rw);
  }

  /** On the shipped table, the local headers come out as five headers in first-use order. */
  lemma ShippedHeaders()
    ensures Dedup(AllHeaders(DebugSymbolsTable)) == ["env.h", "base_object-inl.h", "handle_wrap.h", "util.h", "req_wrap.h"]
  {
    ShippedAllHeaders();
    ShippedDedup(EnvHeader, BaseObjectHeader, HandleWrapHeader, UtilHeader, ReqWrapHeader);
  }
}
