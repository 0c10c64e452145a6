/** The local parts of a batch of domain mailboxes: given, or generated from a prefix and a range of numbers. */
module BatchNames {
  import opened Decimal
  import opened Text
  import opened Wrappers

  datatype Error =
    | InputInvalid
    | Validation(field: string)
    | LocalPartRequired

  // ---------- Deduplication ----------

  /** The trimmed values that are not empty, each once, in the order in which they first occur. */
  function Normalized(values: seq<string>): seq<string> {
    if values == [] then []
    else
      var n, last := Normalized(values[..|values| - 1]), TrimSpace(values[|values| - 1]);
      if last == "" || last in n then n else n + [last]
  }

  method NormalizeManagementStrings(values: seq<string>) returns (result: seq<string>)
    ensures result == Normalized(values)
  {
    var seen: set<string> := {};
    result := [];
    for i := 0 to |values|
      invariant result == Normalized(values[..i])
      invariant forall s :: s in seen <==> s in result
    {
      assert values[..i + 1][..i] == values[..i];
      var value := TrimSpace(values[i]);
      if value == "" || value in seen {
        continue;
      }
      seen := seen + {value};
      result := result + [value];
    }
    assert values[..|values|] == values;
  }

  predicate IsNormal(values: seq<string>) {
    && (forall i :: 0 <= i < |values| ==> values[i] != "" && Trimmed(values[i]))
    && forall i, j :: 0 <= i < j < |values| ==> values[i] != values[j]
  }

  predicate IsTrimOf(values: seq<string>, s: string) {
    exists i :: 0 <= i < |values| && TrimSpace(values[i]) == s
  }

  lemma TrimsOneMore(values: seq<string>, value: string)
    ensures forall s :: IsTrimOf(values + [value], s) <==> IsTrimOf(values, s) || s == TrimSpace(value)
  {
    forall s
      ensures IsTrimOf(values + [value], s) <==> IsTrimOf(values, s) || s == TrimSpace(value)
    {
      if i :| 0 <= i < |values| && TrimSpace(values[i]) == s {
        assert TrimSpace((values + [value])[i]) == s;
      }
      assert TrimSpace((values + [value])[|values|]) == TrimSpace(value);
    }
  }

  /** The result holds every non-empty trimmed value once, and is the input exactly when that already was so. */
  lemma {:induction false} NormalizedIs(values: seq<string>)
    ensures IsNormal(Normalized(values)) && |Normalized(values)| <= |values|
    ensures forall s :: s in Normalized(values) <==> s != "" && IsTrimOf(values, s)
    ensures IsNormal(values) <==> Normalized(values) == values
  {
    if values != [] {
      var init, last := values[..|values| - 1], TrimSpace(values[|values| - 1]);
      NormalizedIs(init);
      TrimSpaceFixes(values[|values| - 1]);
      assert values == init + [values[|values| - 1]];
      TrimsOneMore(init, values[|values| - 1]);
      if IsNormal(values) {
        assert forall i :: 0 <= i < |init| ==> values[i] == init[i];
      }
    }
  }

  // ---------- Generation ----------

  /** One name; the number wraps around at 64 bits. */
  function Name(prefix: string, start: int, padding: int, index: nat): string {
    var number := Wrap64(start + index);
    prefix + if padding > 0 then PaddedItoa(padding, number) else Itoa(number)
  }

  function Names(prefix: string, start: int, padding: int, count: nat): (names: seq<string>)
    ensures |names| == count
  {
    seq(count, index requires 0 <= index < count => Name(prefix, start, padding, index))
  }

  lemma ItoaIsUnpadded(n: int)
    ensures Itoa(n) == PaddedItoa(0, n)
  {
  }

  /** A number stands behind the prefix, and its rendering determines it whatever its length. */
  lemma NameDenotes(prefix: string, start: int, padding: int, index: nat)
    ensures var name := Name(prefix, start, padding, index);
            && |name| > |prefix| && prefix == name[..|prefix|] && IsDigit(name[|name| - 1])
            && Denotes(name[|prefix|..]) == Some(Wrap64(start + index))
  {
    var width := if padding > 0 then padding else 0;
    var number := Wrap64(start + index);
    ItoaIsUnpadded(number);
    PaddedItoaDenotes(width, number);
    var name := Name(prefix, start, padding, index);
    assert name == prefix + PaddedItoa(width, number);
    assert name[|prefix|..] == PaddedItoa(width, number);
  }

  /** Less than 2^64 apart, the numbers wrap to different ones. */
  lemma NamesDiffer(prefix: string, start: int, padding: int, i: nat, j: nat)
    requires i < j < i + 0x1_0000_0000_0000_0000
    ensures Name(prefix, start, padding, i) != Name(prefix, start, padding, j)
  {
    NameDenotes(prefix, start, padding, i);
    NameDenotes(prefix, start, padding, j);
    assert Wrap64(start + i) != Wrap64(start + j);
  }

  /**
   Generated names are pairwise distinct for every trimmed prefix, every padding and every start, wrapping
   included.
   */
  lemma NamesAreNormal(prefix: string, start: int, padding: int, count: nat)
    requires prefix != "" && Trimmed(prefix) && count <= 0x1_0000_0000_0000_0000
    ensures IsNormal(Names(prefix, start, padding, count))
    ensures Normalized(Names(prefix, start, padding, count)) == Names(prefix, start, padding, count)
  {
    var names := Names(prefix, start, padding, count);
    forall i | 0 <= i < count
      ensures names[i] != "" && Trimmed(names[i])
    {
      NameDenotes(prefix, start, padding, i);
      assert names[i][0] == prefix[0];
    }
    forall i, j | 0 <= i < j < count
      ensures names[i] != names[j]
    {
      NamesDiffer(prefix, start, padding, i, j);
    }
    NormalizedIs(names);
  }

  // ---------- The request ----------

  datatype Request = Request(
    localParts: seq<string>,
    prefix: Option<string>,
    count: Option<int>,
    startFrom: Option<int>,
    padding: Option<int>)

  function Lowered(values: seq<string>): (r: seq<string>)
    ensures |r| == |values|
  {
    seq(|values|, i requires 0 <= i < |values| => ToLower(TrimSpace(values[i])))
  }

  predicate LengthsValid(values: seq<string>) {
    forall i :: 0 <= i < |values| ==> 1 <= |ToLower(TrimSpace(values[i]))| <= 255
  }

  /** The first thing wrong with a range. */
  function RangeError(r: Request): Option<Error> {
    if r.prefix.None? || r.count.None? then Some(InputInvalid)
    else if !(1 <= |ToLower(TrimSpace(r.prefix.value))| <= 100) then Some(Validation("prefix"))
    else if !(1 <= r.count.value <= 1000) then Some(Validation("count"))
    else if Start(r) < 0 || Padding(r) < 0 || Padding(r) > 10 then Some(Validation("startFrom and padding"))
    else None
  }

  lemma LoweredIsTrimmed(s: string)
    ensures Trimmed(ToLower(TrimSpace(s)))
  {
    TrimSpaceFixes(s);
  }

  function Start(r: Request): int {
    if r.startFrom.Some? then r.startFrom.value else 1
  }

  function Padding(r: Request): int {
    if r.padding.Some? then r.padding.value else 0
  }

  /** The local parts of a batch, or why there are none. */
  function BatchResult(r: Request): Result<seq<string>, Error> {
    if r.localParts != [] then
      if |r.localParts| <= 1000 && LengthsValid(r.localParts) then Ok(Normalized(Lowered(r.localParts)))
      else Err(Validation("localParts"))
    else
      match RangeError(r)
      case Some(e) => Err(e)
      case None => Ok(Names(ToLower(TrimSpace(r.prefix.value)), Start(r), Padding(r), r.count.value))
  }

  /** A list is accepted exactly up to 1000 values, each of 1 to 255 characters; the names are those, in lower case. */
  lemma ListsAccepted(r: Request)
    requires r.localParts != []
    ensures BatchResult(r).Ok? <==>
              |r.localParts| <= 1000 && forall s :: s in r.localParts ==> 1 <= |TrimSpace(s)| <= 255
    ensures BatchResult(r).Ok? ==>
              forall name :: name in BatchResult(r).value <==>
                               exists s :: s in r.localParts && ToLower(TrimSpace(s)) == name
  {
    if |r.localParts| <= 1000 && LengthsValid(r.localParts) {
      NormalizedIs(Lowered(r.localParts));
      forall name
        ensures name != "" && IsTrimOf(Lowered(r.localParts), name)
                <==> exists s :: s in r.localParts && ToLower(TrimSpace(s)) == name
      {
        ListedIs(r.localParts, name);
      }
    }
  }

  lemma ListedIs(values: seq<string>, name: string)
    requires LengthsValid(values)
    ensures name != "" && IsTrimOf(Lowered(values), name) <==> exists s :: s in values && ToLower(TrimSpace(s)) == name
  {
    forall i | 0 <= i < |values|
      ensures TrimSpace(Lowered(values)[i]) == ToLower(TrimSpace(values[i])) != ""
    {
      LoweredIsTrimmed(values[i]);
      TrimSpaceFixes(ToLower(TrimSpace(values[i])));
    }
    if s :| s in values && ToLower(TrimSpace(s)) == name {
      var i :| 0 <= i < |values| && values[i] == s;
      assert TrimSpace(Lowered(values)[i]) == name;
    }
  }

  /** A range is accepted exactly within its bounds, the start being 1 and the padding 0 when they are not given. */
  lemma RangesAccepted(r: Request)
    requires r.localParts == []
    ensures BatchResult(r) == Err(InputInvalid) <==> r.prefix.None? || r.count.None?
    ensures BatchResult(r).Ok? <==>
              && r.prefix.Some? && 1 <= |TrimSpace(r.prefix.value)| <= 100
              && r.count.Some? && 1 <= r.count.value <= 1000
              && (r.startFrom.Some? ==> r.startFrom.value >= 0)
              && (r.padding.Some? ==> 0 <= r.padding.value <= 10)
    ensures BatchResult(r).Ok? ==> |BatchResult(r).value| == r.count.value
  {
  }

  /** Each name is the prefix and a number, counted from the start and padded as asked for. */
  lemma RangeNames(r: Request, i: nat)
    requires r.localParts == [] && BatchResult(r).Ok? && i < |BatchResult(r).value|
    ensures var name, prefix := BatchResult(r).value[i], ToLower(TrimSpace(r.prefix.value));
            var number := Wrap64(i + if r.startFrom.Some? then r.startFrom.value else 1);
            var text := PaddedItoa(if r.padding.Some? then r.padding.value else 0, number);
            name == prefix + text && Denotes(text) == Some(number)
  {
    var number := Wrap64(Start(r) + i);
    ItoaIsUnpadded(number);
    PaddedItoaDenotes(Padding(r), number);
  }

  method GivenNames(values: seq<string>) returns (result: Result<seq<string>, Error>)
    ensures result == if |values| <= 1000 && LengthsValid(values) then Ok(Lowered(values))
                      else Err(Validation("localParts"))
  {
    if |values| > 1000 {
      return Err(Validation("localParts"));
    }
    var localParts: seq<string> := [];
    for i := 0 to |values|
      invariant localParts == Lowered(values)[..i]
      invariant LengthsValid(values[..i])
    {
      var value := ToLower(TrimSpace(values[i]));
      if |value| < 1 || |value| > 255 {
        return Err(Validation("localParts"));
      }
      localParts := localParts + [value];
      assert values[..i + 1] == values[..i] + [values[i]];
    }
    assert values[..|values|] == values;
    assert Lowered(values)[..|values|] == Lowered(values);
    return Ok(localParts);
  }

  method Generate(prefix: string, start: int, padding: int, count: nat) returns (localParts: seq<string>)
    ensures localParts == Names(prefix, start, padding, count)
  {
    localParts := [];
    for index := 0 to count
      invariant localParts == Names(prefix, start, padding, count)[..index]
    {
      var number := Itoa(Wrap64(start + index));
      if padding > 0 {
        number := PaddedItoa(padding, Wrap64(start + index));
      }
      assert Name(prefix, start, padding, index) == prefix + number;
      localParts := localParts + [prefix + number];
    }
  }

  method GeneratedNames(r: Request) returns (result: Result<seq<string>, Error>)
    ensures result == match RangeError(r)
                      case Some(e) => Err(e)
                      case None => Ok(Names(ToLower(TrimSpace(r.prefix.value)), Start(r), Padding(r), r.count.value))
  {
    if r.prefix.None? || r.count.None? {
      return Err(InputInvalid);
    }
    var prefix := ToLower(TrimSpace(r.prefix.value));
    if |prefix| < 1 || |prefix| > 100 {
      return Err(Validation("prefix"));
    }
    if r.count.value < 1 || r.count.value > 1000 {
      return Err(Validation("count"));
    }
    var start := 1;
    if r.startFrom.Some? {
      start := r.startFrom.value;
    }
    var padding := 0;
    if r.padding.Some? {
      padding := r.padding.value;
    }
    if start < 0 || padding < 0 || padding > 10 {
      return Err(Validation("startFrom and padding"));
    }
    var localParts := Generate(prefix, start, padding, r.count.value);
    return Ok(localParts);
  }

  /** The final deduplication leaves generated names as they are, and no valid request is left without a name. */
  method ParseManagedDomainMailboxBatchCreate(r: Request) returns (result: Result<seq<string>, Error>)
    ensures result == BatchResult(r)
    ensures result != Err(LocalPartRequired)
    ensures result.Ok? ==> result.value != [] && IsNormal(result.value)
  {
    if |r.localParts| > 0 {
      result := GivenNames(r.localParts);
    } else {
      result := GeneratedNames(r);
    }
    if result.Err? {
      return;
    }
    var localParts := result.value;
    if r.localParts == [] {
      LoweredIsTrimmed(r.prefix.value);
      NamesAreNormal(ToLower(TrimSpace(r.prefix.value)), Start(r), Padding(r), r.count.value);
    } else {
      LoweredIsTrimmed(r.localParts[0]);
      TrimSpaceFixes(localParts[0]);
      NormalizedIs(localParts);
      assert TrimSpace(localParts[0]) in Normalized(localParts);
    }
    localParts := NormalizeManagementStrings(localParts);
    if |localParts| == 0 {
      return Err(LocalPartRequired);
    }
    return Ok(localParts);
  }

  // ---------- The width of the numbers ----------

  function Power10(k: nat): nat {
    if k == 0 then 1 else 10 * Power10(k - 1)
  }

  lemma {:induction false} DigitsFit(n: nat, k: nat)
    requires k >= 1
    ensures |Digits(n)| <= k <==> n < Power10(k)
    decreases k
  {
    if n >= 10 && k > 1 {
      DigitsFit(n / 10, k - 1);
    } else if n >= 10 {
      assert Power10(0) == 1;
    } else {
      OnePower(k);
    }
  }

  lemma {:induction false} OnePower(k: nat)
    requires k >= 1
    ensures Power10(k) >= 10
  {
    if k > 1 {
      OnePower(k - 1);
    }
  }

  /**
   Behind the prefix stand exactly as many digits as asked for, filled up with zeros, and more
   only when the number needs them; they denote the number.
   */
  lemma NumberWidth(prefix: string, start: int, padding: nat, index: nat)
    requires padding > 0 && 0 <= start + index <= MAX_INT64
    ensures var name := Name(prefix, start, padding, index);
            && prefix <= name && AllDigits(name[|prefix|..]) && Value(name[|prefix|..]) == start + index
            && |name| >= |prefix| + padding
            && (|name| == |prefix| + padding <==> start + index < Power10(padding))
  {
    var n := start + index;
    var name := Name(prefix, start, padding, index);
    assert name[|prefix|..] == Pad(Digits(n), padding);
    ValuePad(Digits(n), padding);
    ValueDigits(n);
    DigitsFit(n, padding);
  }

  /** Without padding no digit is a leading zero, unless the number is zero. */
  lemma UnpaddedNumber(prefix: string, start: int, padding: int, index: nat)
    requires padding <= 0 && 0 <= start + index <= MAX_INT64
    ensures Name(prefix, start, padding, index) == prefix + Digits(start + index)
    ensures start + index > 0 ==> Name(prefix, start, padding, index)[|prefix|] != '0'
  {
    NoLeadingZero(start + index);
  }

  lemma {:induction false} NoLeadingZero(n: nat)
    ensures n > 0 ==> Digits(n)[0] != '0'
  {
    if n >= 10 {
      NoLeadingZero(n / 10);
    }
  }
}
