/**
 * Header recognition of the table processor: the synonym table `HeaderMappings`, the fuzzy
 * first-match search `FindMatchingHeader` and the column map `MapHeaders` built from them.
 */
module Headers {
  import opened Wrappers
  import opened Text
  import opened Lists

  /** One entry of `HeaderMappings`: a canonical field and the header texts that announce it. */
  datatype Mapping = Mapping(key: string, names: seq<string>)

  /** `HeaderMappings`, in declaration order (the order the dictionary enumerates). */
  const HeaderMappings: seq<Mapping> := [
    Mapping("Date", ["Date", "Transaction Date", "Value Date", "Tran Date", "Create Date"]),
    Mapping("Reference", ["Reference", "Reference No", "Ref No", "Transaction ID", "Trans ID", "Trans Ref"]),
    Mapping("Description", ["Description", "Narration", "Transaction Description", "Details",
                            "Particulars", "Description/Payee/Memo"]),
    Mapping("Value Date", ["Value Date", "Val Date", "Settlement Date", "Create Date"]),
    Mapping("Credit", ["Credit", "Deposit", "Credit Amount", "Amount (CR)", "Deposits", "Lodgements"]),
    Mapping("Debit", ["Debit", "Withdrawal", "Debit Amount", "Amount (DR)", "Withdrawals"]),
    Mapping("Balance", ["Balance", "Running Balance", "Closing Balance", "Current Balance"])
  ]

  /** `possibleNames.Any(p => h.Contains(p, OrdinalIgnoreCase))`. */
  predicate MatchesAny(h: string, names: seq<string>)
  {
    exists k :: 0 <= k < |names| && ContainsIgnoreCase(h, names[k])
  }

  /** Header `i` is the leftmost one whose trimmed text contains one of `names`. */
  predicate IsFirstMatch(headers: seq<string>, names: seq<string>, i: int)
  {
    0 <= i < |headers| && MatchesAny(Trim(headers[i]), names)
    && forall j :: 0 <= j < i ==> !MatchesAny(Trim(headers[j]), names)
  }

  /** The left-to-right scan of `FindMatchingHeader`, resumed at position `from`. */
  function FirstMatchFrom(headers: seq<string>, names: seq<string>, from: nat): (r: Option<nat>)
    requires from <= |headers|
    requires forall j :: 0 <= j < from ==> !MatchesAny(Trim(headers[j]), names)
    ensures r.Some? ==> IsFirstMatch(headers, names, r.value)
    ensures r.None? ==> forall j :: 0 <= j < |headers| ==> !MatchesAny(Trim(headers[j]), names)
    decreases |headers| - from
  {
    if from == |headers| then None
    else if MatchesAny(Trim(headers[from]), names) then Some(from)
    else FirstMatchFrom(headers, names, from + 1)
  }

  /**
   * `FindMatchingHeader`: the trimmed text of the first header that contains a synonym, or
   * None (`null`) when no header does.
   */
  function FindMatchingHeader(headers: seq<string>, names: seq<string>): (r: Option<string>)
    ensures r.None? <==> forall j :: 0 <= j < |headers| ==> !MatchesAny(Trim(headers[j]), names)
    ensures r.Some? ==> exists i :: IsFirstMatch(headers, names, i) && r.value == Trim(headers[i])
  {
    match FirstMatchFrom(headers, names, 0)
    case None => None
    case Some(i) => Some(Trim(headers[i]))
  }

  function Self(s: string): string { s }

  /** `List<string>.IndexOf`: the first position holding `x`, or -1. */
  function IndexOf(s: seq<string>, x: string): (r: int)
    ensures -1 <= r < |s|
    ensures r == -1 <==> x !in s
    ensures r >= 0 ==> s[r] == x && forall j :: 0 <= j < r ==> s[j] != x
  {
    match FirstIndexOf(s, Self, x)
    case None => assert forall j :: 0 <= j < |s| ==> Self(s[j]) != x; -1
    case Some(i) => i
  }

  /** The column map after the first `n` entries of `HeaderMappings` were looked up. */
  function MapHeadersUpTo(headers: seq<string>, n: nat): map<string, int>
    requires n <= |HeaderMappings|
  {
    if n == 0 then map[]
    else
      var m := MapHeadersUpTo(headers, n - 1);
      var mapping := HeaderMappings[n - 1];
      match FindMatchingHeader(headers, mapping.names)
      case Some(h) => m[mapping.key := IndexOf(headers, h)]
      case None => m
  }

  /** The result of `MapHeaders` on `headers`. */
  function HeaderMap(headers: seq<string>): map<string, int>
  {
    MapHeadersUpTo(headers, |HeaderMappings|)
  }

  /** `MapHeaders`: fills the column map entry by entry of `HeaderMappings`. */
  method MapHeaders(headers: seq<string>) returns (headerMap: map<string, int>)
    ensures headerMap == HeaderMap(headers)
  {
    headerMap := map[];
    for n := 0 to |HeaderMappings|
      invariant headerMap == MapHeadersUpTo(headers, n)
    {
      var mapping := HeaderMappings[n];
      var matched := FindMatchingHeader(headers, mapping.names);
      if matched.Some? {
        var index := IndexOf(headers, matched.value);
        headerMap := headerMap[mapping.key := index];
      }
    }
  }

  /** The canonical keys are pairwise distinct. */
  lemma KeysDistinct(j: nat, k: nat)
    requires j < k < |HeaderMappings|
    ensures HeaderMappings[j].key != HeaderMappings[k].key
  {
    assert |HeaderMappings[j].key| != |HeaderMappings[k].key|;
  }

  /**
   * After `n` lookups, field `k` is present exactly when `k < n` and one of its synonyms was
   * found, and it then holds the position of the matched header text.
   */
  lemma {:induction false} MapHeadersUpToLookup(headers: seq<string>, n: nat, k: nat)
    requires n <= |HeaderMappings| && k < |HeaderMappings|
    ensures var m := MapHeadersUpTo(headers, n);
            var found := FindMatchingHeader(headers, HeaderMappings[k].names);
            && (HeaderMappings[k].key in m <==> k < n && found.Some?)
            && (HeaderMappings[k].key in m ==> m[HeaderMappings[k].key] == IndexOf(headers, found.value))
  {
    if n > 0 {
      MapHeadersUpToLookup(headers, n - 1, k);
      if k < n - 1 {
        KeysDistinct(k, n - 1);
      } else if k > n - 1 {
        KeysDistinct(n - 1, k);
      }
    }
  }

  /** After `n` lookups every key of the map is the canonical key of one of the first `n` entries. */
  lemma {:induction false} MapHeadersUpToKeys(headers: seq<string>, n: nat)
    requires n <= |HeaderMappings|
    ensures forall key :: key in MapHeadersUpTo(headers, n) ==>
              exists k :: 0 <= k < n && HeaderMappings[k].key == key
  {
    if n > 0 {
      MapHeadersUpToKeys(headers, n - 1);
    }
  }

  /**
   * A canonical field is in the map exactly when one of its synonyms is found, and then maps to
   * the `IndexOf` of the matched header text; nothing else is in the map.
   */
  lemma HeaderMapLookup(headers: seq<string>, k: nat)
    requires k < |HeaderMappings|
    ensures var m := HeaderMap(headers);
            var found := FindMatchingHeader(headers, HeaderMappings[k].names);
            && (HeaderMappings[k].key in m <==> found.Some?)
            && (HeaderMappings[k].key in m ==> m[HeaderMappings[k].key] == IndexOf(headers, found.value))
    ensures forall key :: key in HeaderMap(headers) ==>
              exists j :: 0 <= j < |HeaderMappings| && HeaderMappings[j].key == key
  {
    MapHeadersUpToLookup(headers, |HeaderMappings|, k);
    MapHeadersUpToKeys(headers, |HeaderMappings|);
  }

  /** Every header text is already trimmed (as the rows `FormatBankStatementData` passes are). */
  predicate AllTrimmed(headers: seq<string>)
  {
    forall i :: 0 <= i < |headers| ==> IsTrimmed(headers[i])
  }

  /**
   * On trimmed headers every mapped field points at a real column: the first header that
   * contains one of its synonyms.
   */
  lemma MappedColumnIsFirstMatch(headers: seq<string>, k: nat)
    requires AllTrimmed(headers)
    requires k < |HeaderMappings| && HeaderMappings[k].key in HeaderMap(headers)
    ensures var idx := HeaderMap(headers)[HeaderMappings[k].key];
            0 <= idx < |headers| && IsFirstMatch(headers, HeaderMappings[k].names, idx)
  {
    var names := HeaderMappings[k].names;
    HeaderMapLookup(headers, k);
    var h := FindMatchingHeader(headers, names).value;
    var i :| IsFirstMatch(headers, names, i) && h == Trim(headers[i]);
    TrimOfTrimmed(headers[i]);
  }

  /** The map holds at most one entry per canonical field. */
  lemma {:induction false} MapHeadersUpToSize(headers: seq<string>, n: nat)
    requires n <= |HeaderMappings|
    ensures |MapHeadersUpTo(headers, n)| <= n
  {
    if n > 0 {
      MapHeadersUpToSize(headers, n - 1);
    }
  }

  /** A header "Value Date" is claimed by both the Date and the Value Date field. */
  lemma SharedColumn()
    ensures var m := HeaderMap(["Value Date"]);
            "Date" in m && m["Date"] == 0 && "Value Date" in m && m["Value Date"] == 0
  {
    var headers := ["Value Date"];
    TrimOfTrimmed(headers[0]);
    var dateNames, valueDateNames := HeaderMappings[0].names, HeaderMappings[3].names;
    assert dateNames[0] == "Date" && valueDateNames[0] == "Value Date";
    assert MatchesAt(headers[0], "Date", 6);
    assert ContainsIgnoreCase(Trim(headers[0]), dateNames[0]);
    assert MatchesAt(headers[0], "Value Date", 0);
    assert ContainsIgnoreCase(Trim(headers[0]), valueDateNames[0]);
    assert IsFirstMatch(headers, HeaderMappings[0].names, 0);
    assert IsFirstMatch(headers, HeaderMappings[3].names, 0);
    HeaderMapLookup(headers, 0);
    HeaderMapLookup(headers, 3);
  }
}
