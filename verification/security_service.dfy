/**
 * The check of an AutoSignon request: the timestamp must parse and lie
 * within the configured window of the current time; then a data string is
 * built from the request (sorted parameter values for the secure algorithm,
 * a character-code sum for the insecure one), the shared secret is appended,
 * the result is hashed and compared with the MAC sent on the request.
 *
 * The digest (MD5 rendered as hex) is a parameter that may fail, and the
 * current time is a parameter.
 */
module SecurityService {
  import opened JavaLang
  import opened Settings
  import opened SettingsManager
  import opened AutoSignonConfig

  /** The request parameters; `getParameter` of an absent name is null. */
  type Request = map<string, string>

  /** The digest of a string, or nothing when hashing fails. */
  type Digest = string -> Option<string>

  /** The configuration values one check consults, as decoded from the store. */
  datatype AuthConfig = AuthConfig(
    timestampParam: string,
    userIdParam: string,
    macParam: string,
    macParams: seq<string>,
    sharedSecret: string,
    range: int,
    allowSecure: bool,
    allowInsecure: bool)

  function ReadConfig(store: SettingsManager): (cfg: AuthConfig)
    reads store
    ensures IsLong(cfg.range)
    ensures cfg.allowSecure ==> !cfg.allowInsecure
    ensures cfg.timestampParam == GetTimestampRequestParameter(store)
    ensures cfg.userIdParam == GetUserIdRequestParameter(store)
    ensures cfg.macParam == GetMacRequestParameter(store)
    ensures cfg.macParams == GetMacParameters(store)
    ensures cfg.sharedSecret == GetSharedSecret(store)
    ensures cfg.range == GetTimestampRange(store)
    ensures cfg.allowSecure == AllowSecureMac(store) && cfg.allowInsecure == AllowInsecureMac(store)
  {
    AuthConfig(
      GetTimestampRequestParameter(store),
      GetUserIdRequestParameter(store),
      GetMacRequestParameter(store),
      GetMacParameters(store),
      GetSharedSecret(store),
      GetTimestampRange(store),
      AllowSecureMac(store),
      AllowInsecureMac(store))
  }

  // ---------------------------------------------------------------------
  // Freshness of the timestamp
  // ---------------------------------------------------------------------

  /**
   * A timestamp whose decimal text is at least two characters shorter than
   * the current time's is taken to be in seconds and multiplied by 1000,
   * with `long` wrap-around.
   */
  function ScaledTimestamp(timestamp: int, now: int): (r: int)
    requires IsLong(timestamp) && IsLong(now)
    ensures IsLong(r)
  {
    if DecimalLength(now) - DecimalLength(timestamp) >= 2 then WrapLong(timestamp * 1000) else timestamp
  }

  /**
   * `timestampExpired`: the distance between now and the scaled timestamp,
   * computed as `Math.abs` of a wrapped `long` difference, exceeds the range.
   */
  function TimestampExpired(timestamp: int, now: int, range: int): (r: bool)
    requires IsLong(timestamp) && IsLong(now) && IsLong(range)
    ensures r ==> range < LONG_MAX
  {
    AbsLong(WrapLong(now - ScaledTimestamp(timestamp, now))) > range
  }

  /**
   * Without overflow in the subtraction, a timestamp is expired exactly when
   * it lies strictly more than `range` milliseconds away, in either direction.
   */
  lemma ExpiredIffOutsideRange(timestamp: int, now: int, range: int)
    requires IsLong(timestamp) && IsLong(now) && IsLong(range)
    requires var d := now - ScaledTimestamp(timestamp, now); IsLong(d) && d != LONG_MIN
    ensures var d := now - ScaledTimestamp(timestamp, now);
      TimestampExpired(timestamp, now, range) <==> (d > range || -d > range)
  {
  }

  /** The tolerance is symmetric: swapping the two instants does not change the verdict. */
  lemma DistanceSymmetric(a: int, b: int, range: int)
    requires IsLong(a) && IsLong(b) && IsLong(range)
    requires IsLong(a - b) && IsLong(b - a)
    ensures (AbsLong(WrapLong(a - b)) > range) == (AbsLong(WrapLong(b - a)) > range)
  {
  }

  /** A 10-digit timestamp (seconds) is rescaled against a 13-digit clock (milliseconds). */
  lemma SecondsAreRescaled(timestamp: int, now: int)
    requires 1_000_000_000 <= timestamp < 10_000_000_000
    requires 1_000_000_000_000 <= now < 10_000_000_000_000
    ensures ScaledTimestamp(timestamp, now) == timestamp * 1000
  {
    assert Pow10(9) == 1_000_000_000 && Pow10(10) == 10 * Pow10(9);
    assert Pow10(12) == 1000 * Pow10(9) && Pow10(13) == 10 * Pow10(12);
    NatToDigitsLength(timestamp, 10);
    NatToDigitsLength(now, 13);
  }

  /** A 13-digit timestamp (milliseconds) is used as is against a 13-digit clock. */
  lemma MillisecondsKept(timestamp: int, now: int)
    requires 1_000_000_000_000 <= timestamp < 10_000_000_000_000
    requires 1_000_000_000_000 <= now < 10_000_000_000_000
    ensures ScaledTimestamp(timestamp, now) == timestamp
  {
    assert Pow10(12) == 1_000_000_000_000 && Pow10(13) == 10 * Pow10(12);
    NatToDigitsLength(timestamp, 13);
    NatToDigitsLength(now, 13);
  }

  /**
   * As written, the subtraction can overflow: a timestamp exactly 2^63
   * milliseconds before a 13-digit clock makes the difference wrap to
   * `Long.MIN_VALUE`, whose `Math.abs` is negative, so the request passes
   * the freshness test for every non-negative range.
   */
  lemma FarPastTimestampAccepted(now: int, range: int)
    requires 1_000_000_000_000 <= now < 10_000_000_000_000
    requires 0 <= range <= LONG_MAX
    ensures IsLong(now - 0x8000_0000_0000_0000)
    ensures !TimestampExpired(now - 0x8000_0000_0000_0000, now, range)
  {
    var timestamp := now - 0x8000_0000_0000_0000;
    var m := 0x8000_0000_0000_0000 - now;
    assert Pow10(12) == 1_000_000_000_000 && Pow10(13) == 10 * Pow10(12);
    assert Pow10(18) == 1_000_000 * Pow10(12) && Pow10(19) == 10 * Pow10(18);
    NatToDigitsLength(now, 13);
    NatToDigitsLength(m, 19);
    assert DecimalLength(timestamp) == 20;
    assert ScaledTimestamp(timestamp, now) == timestamp;
    assert WrapLong(now - timestamp) == LONG_MIN;
  }

  // ---------------------------------------------------------------------
  // Secure data string: values in ascending parameter-name order
  // ---------------------------------------------------------------------

  /** `m` is the least element of `names` in `String.compareTo` order. */
  predicate IsLeast(m: string, names: set<string>)
  {
    m in names && forall y :: y in names && y != m ==> StrLess(m, y)
  }

  lemma {:induction false} LeastExists(names: set<string>)
    requires names != {}
    ensures exists m :: IsLeast(m, names)
    decreases |names|
  {
    var x :| x in names;
    if names != {x} {
      var rest := names - {x};
      LeastExists(rest);
      var m :| IsLeast(m, rest);
      StrLessTotal(x, m);
      if StrLess(x, m) {
        forall y | y in names && y != x ensures StrLess(x, y) {
          if y != m { StrLessTransitive(x, m, y); }
        }
        assert IsLeast(x, names);
      } else {
        assert IsLeast(m, names);
      }
    } else {
      assert IsLeast(x, names);
    }
  }

  lemma LeastUnique(m1: string, m2: string, names: set<string>)
    requires IsLeast(m1, names) && IsLeast(m2, names)
    ensures m1 == m2
  {
    if m1 != m2 {
      StrLessAsymmetric(m1, m2);
    }
  }

  ghost function Least(names: set<string>): (m: string)
    requires names != {}
    ensures IsLeast(m, names)
  {
    LeastExists(names);
    var m :| IsLeast(m, names); m
  }

  /** The iteration order of a `TreeSet<String>`: each name once, ascending. */
  ghost function SortedNames(names: set<string>): seq<string>
    decreases |names|
  {
    if names == {} then []
    else
      var m := Least(names);
      [m] + SortedNames(names - {m})
  }

  /** Strictly ascending in `String.compareTo` order. */
  ghost predicate Ascending(order: seq<string>)
  {
    forall i, j :: 0 <= i < j < |order| ==> StrLess(order[i], order[j])
  }

  /** The enumeration lists exactly the set, each name once, in ascending order. */
  lemma {:induction false} SortedNamesSpec(names: set<string>)
    ensures forall x :: x in SortedNames(names) <==> x in names
    ensures |SortedNames(names)| == |names|
    ensures Ascending(SortedNames(names))
    decreases |names|
  {
    if names != {} {
      var m := Least(names);
      var rest := SortedNames(names - {m});
      SortedNamesSpec(names - {m});
      var r := [m] + rest;
      forall i, j | 0 <= i < j < |r| ensures StrLess(r[i], r[j]) {
        if i == 0 {
          assert r[j] == rest[j - 1] && r[j] in names - {m};
        } else {
          assert r[i] == rest[i - 1] && r[j] == rest[j - 1];
        }
      }
    }
  }

  /** Any ascending listing of exactly the set is the `TreeSet` enumeration. */
  lemma {:induction false} AscendingListingUnique(order: seq<string>, names: set<string>)
    requires Ascending(order)
    requires forall x :: x in order <==> x in names
    ensures order == SortedNames(names)
    decreases |order|
  {
    if order == [] {
      assert names == {};
    } else {
      AscendingHeadIsLeast(order, names);
      LeastUnique(order[0], Least(names), names);
      AscendingTailListsRest(order, names);
      AscendingListingUnique(order[1..], names - {order[0]});
    }
  }

  /** The first name of an ascending listing of the set is its least name. */
  lemma AscendingHeadIsLeast(order: seq<string>, names: set<string>)
    requires order != [] && Ascending(order)
    requires forall x :: x in order <==> x in names
    ensures IsLeast(order[0], names)
  {
    assert order[0] in names;
    forall y | y in names && y != order[0] ensures StrLess(order[0], y) {
      var j :| 0 <= j < |order| && order[j] == y;
    }
  }

  /** The rest of an ascending listing lists the rest of the set, still ascending. */
  lemma AscendingTailListsRest(order: seq<string>, names: set<string>)
    requires order != [] && Ascending(order)
    requires forall x :: x in order <==> x in names
    ensures Ascending(order[1..])
    ensures forall x :: x in order[1..] <==> x in names - {order[0]}
  {
    var tail := order[1..];
    forall x ensures x in tail <==> x in names - {order[0]} {
      if x in tail {
        var j :| 0 <= j < |tail| && tail[j] == x;
        assert order[j + 1] == x;
        assert StrLess(order[0], x);
        StrLessIrreflexive(x);
      }
      if x in names - {order[0]} {
        var j :| 0 <= j < |order| && order[j] == x;
        assert j != 0;
        assert tail[j - 1] == x;
      }
    }
  }

  /** The value of a parameter, or nothing when the request lacks it. */
  function ValueOrEmpty(request: Request, name: string): (r: string)
    ensures name !in request ==> r == ""
    ensures name in request ==> r == request[name]
  {
    if name in request then request[name] else ""
  }

  /** The values of the listed names, in list order; absent names contribute nothing. */
  function ConcatValues(request: Request, order: seq<string>): string
  {
    if order == [] then "" else ValueOrEmpty(request, order[0]) + ConcatValues(request, order[1..])
  }

  /** The names whose values the secure string collects, duplicates collapsed. */
  function MacNameSet(timestampParam: string, userIdParam: string, macParams: seq<string>): (r: set<string>)
    decreases |macParams|
  {
    if macParams == [] then {timestampParam, userIdParam}
    else MacNameSet(timestampParam, userIdParam, macParams[..|macParams| - 1]) + {macParams[|macParams| - 1]}
  }

  lemma {:induction false} MacNameSetMembers(timestampParam: string, userIdParam: string, macParams: seq<string>)
    ensures forall x :: x in MacNameSet(timestampParam, userIdParam, macParams) <==>
      x == timestampParam || x == userIdParam || x in macParams
    decreases |macParams|
  {
    if macParams != [] {
      var init := macParams[..|macParams| - 1];
      MacNameSetMembers(timestampParam, userIdParam, init);
      assert macParams == init + [macParams[|macParams| - 1]];
    }
  }

  /** The secure data string: the values of the MAC names in ascending name order. */
  ghost function SecureString(request: Request, cfg: AuthConfig): string
  {
    ConcatValues(request, SortedNames(MacNameSet(cfg.timestampParam, cfg.userIdParam, cfg.macParams)))
  }

  /**
   * `getSortedValues`: collect the names into a sorted set, then append the
   * value of each present name in ascending order.
   */
  method GetSortedValues(store: SettingsManager, request: Request) returns (data: string)
    ensures data == SecureString(request, ReadConfig(store))
  {
    var sortedSet: set<string> := {};
    var timestampParam := GetTimestampRequestParameter(store);
    var userIdParam := GetUserIdRequestParameter(store);
    sortedSet := sortedSet + {timestampParam};
    sortedSet := sortedSet + {userIdParam};
    var macParameters := GetMacParameters(store);
    for i := 0 to |macParameters|
      invariant sortedSet == MacNameSet(timestampParam, userIdParam, macParameters[..i])
    {
      assert macParameters[..i + 1] == macParameters[..i] + [macParameters[i]];
      sortedSet := sortedSet + {macParameters[i]};
    }
    assert macParameters[..|macParameters|] == macParameters;
    data := AppendValuesInOrder(request, sortedSet);
  }

  /**
   * The second loop of `getSortedValues`: walk the sorted set in ascending
   * order, appending the value of each name the request carries.
   */
  method AppendValuesInOrder(request: Request, sortedSet: set<string>) returns (data: string)
    ensures data == ConcatValues(request, SortedNames(sortedSet))
  {
    var remaining := sortedSet;
    var buffer := "";
    while remaining != {}
      invariant buffer + ConcatValues(request, SortedNames(remaining)) == ConcatValues(request, SortedNames(sortedSet))
      decreases |remaining|
    {
      LeastExists(remaining);
      var param :| IsLeast(param, remaining);
      AppendSortedStep(request, remaining, param, buffer);
      if param in request {
        buffer := buffer + request[param];
      }
      remaining := remaining - {param};
    }
    data := buffer;
  }

  /** One pass of the appending loop keeps what is still owed unchanged. */
  lemma AppendSortedStep(request: Request, remaining: set<string>, param: string, buffer: string)
    requires IsLeast(param, remaining)
    ensures buffer + ConcatValues(request, SortedNames(remaining))
         == (buffer + ValueOrEmpty(request, param)) + ConcatValues(request, SortedNames(remaining - {param}))
  {
    ConcatSortedStep(request, remaining, param);
  }

  /** Taking the least remaining name is one step of the `TreeSet` enumeration. */
  lemma ConcatSortedStep(request: Request, names: set<string>, m: string)
    requires IsLeast(m, names)
    ensures ConcatValues(request, SortedNames(names))
         == ValueOrEmpty(request, m) + ConcatValues(request, SortedNames(names - {m}))
  {
    LeastUnique(m, Least(names), names);
    var order := SortedNames(names);
    assert order == [m] + SortedNames(names - {m});
    assert order[0] == m && order[1..] == SortedNames(names - {m});
  }

  /** A parameter outside the MAC names never influences the secure string. */
  lemma {:induction false} ConcatIgnoresOtherNames(request: Request, order: seq<string>, name: string, value: string)
    requires name !in order
    ensures ConcatValues(request[name := value], order) == ConcatValues(request, order)
    decreases |order|
  {
    if order != [] {
      ConcatIgnoresOtherNames(request, order[1..], name, value);
    }
  }

  lemma SecureIgnoresOtherParameters(request: Request, cfg: AuthConfig, name: string, value: string)
    requires name != cfg.timestampParam && name != cfg.userIdParam && name !in cfg.macParams
    ensures SecureString(request[name := value], cfg) == SecureString(request, cfg)
  {
    var names := MacNameSet(cfg.timestampParam, cfg.userIdParam, cfg.macParams);
    SortedNamesSpec(names);
    MacNameSetMembers(cfg.timestampParam, cfg.userIdParam, cfg.macParams);
    ConcatIgnoresOtherNames(request, SortedNames(names), name, value);
  }

  /**
   * Reordering or repeating the configured optional names leaves the secure
   * string unchanged: only the set of names counts.
   */
  lemma SecureIgnoresParameterOrder(request: Request, cfg1: AuthConfig, cfg2: AuthConfig)
    requires cfg1.timestampParam == cfg2.timestampParam && cfg1.userIdParam == cfg2.userIdParam
    requires forall p :: p in cfg1.macParams <==> p in cfg2.macParams
    ensures SecureString(request, cfg1) == SecureString(request, cfg2)
  {
    MacNameSetMembers(cfg1.timestampParam, cfg1.userIdParam, cfg1.macParams);
    MacNameSetMembers(cfg2.timestampParam, cfg2.userIdParam, cfg2.macParams);
    assert MacNameSet(cfg1.timestampParam, cfg1.userIdParam, cfg1.macParams)
        == MacNameSet(cfg2.timestampParam, cfg2.userIdParam, cfg2.macParams);
  }

  // ---------------------------------------------------------------------
  // Insecure data string: the sum of character codes
  // ---------------------------------------------------------------------

  /** `StringBuffer.append(String)`: a null argument appends the text "null". */
  function OrNull(value: Option<string>): (r: string)
    ensures value.Some? ==> r == value.value
    ensures value.None? ==> r == "null"
  {
    match value
    case Some(v) => v
    case None => "null"
  }

  /** The values of the listed names the request carries, in list order. */
  function OptionalValues(request: Request, names: seq<string>): (r: seq<string>)
    ensures |r| <= |names|
    decreases |names|
  {
    if names == [] then []
    else
      var last := names[|names| - 1];
      OptionalValues(request, names[..|names| - 1]) + (if last in request then [request[last]] else [])
  }

  /** The concatenation of the strings, in order. */
  function Flatten(pieces: seq<string>): string
    decreases |pieces|
  {
    if pieces == [] then "" else Flatten(pieces[..|pieces| - 1]) + pieces[|pieces| - 1]
  }

  /** The sum of the character codes of a string, as unbounded integers. */
  function CharSum(s: string): int
    decreases |s|
  {
    if s == [] then 0 else CharSum(s[..|s| - 1]) + s[|s| - 1] as int
  }

  /** Timestamp, user id (each "null" when absent), then the present optional values. */
  function InsecureData(request: Request, cfg: AuthConfig): string
  {
    OrNull(Lookup(request, cfg.timestampParam)) + OrNull(Lookup(request, cfg.userIdParam))
      + Flatten(OptionalValues(request, cfg.macParams))
  }

  /** The insecure data string: the decimal text of the code sum accumulated in a Java `int`. */
  function InsecureString(request: Request, cfg: AuthConfig): (r: string)
  {
    LongToString(WrapInt(CharSum(InsecureData(request, cfg))))
  }

  /**
   * `getAsciiSum`: build the data string, then add up its character codes
   * in an `int` that wraps around, and return the sum's decimal text.
   */
  method GetAsciiSum(store: SettingsManager, request: Request) returns (data: string)
    ensures data == InsecureString(request, ReadConfig(store))
  {
    var dataString := AppendInsecureData(store, request);
    var asciiSum := SumCharCodes(dataString);
    data := LongToString(asciiSum);
  }

  /**
   * The appending part of `getAsciiSum`: timestamp and user id (null
   * appended as "null"), then each configured optional value the request
   * carries, in configured order.
   */
  method AppendInsecureData(store: SettingsManager, request: Request) returns (buffer: string)
    ensures buffer == InsecureData(request, ReadConfig(store))
  {
    var timestampValue := Lookup(request, GetTimestampRequestParameter(store));
    var userIdValue := Lookup(request, GetUserIdRequestParameter(store));
    buffer := OrNull(timestampValue) + OrNull(userIdValue);
    ghost var required := buffer;
    var macParameters := GetMacParameters(store);
    for i := 0 to |macParameters|
      invariant buffer == required + Flatten(OptionalValues(request, macParameters[..i]))
    {
      var parameter := macParameters[i];
      OptionalValuesStep(request, macParameters, i);
      if parameter in request {
        buffer := buffer + request[parameter];
      }
    }
    assert macParameters[..|macParameters|] == macParameters;
  }

  /** The insecure string is the decimal text of a Java `int`: it parses back to the wrapped sum. */
  lemma InsecureStringParses(request: Request, cfg: AuthConfig)
    ensures ParseLong(Some(InsecureString(request, cfg))) == Some(WrapInt(CharSum(InsecureData(request, cfg))))
    ensures IsInt(ParseLong(Some(InsecureString(request, cfg))).value)
  {
    ParseLongToString(WrapInt(CharSum(InsecureData(request, cfg))));
  }

  /** One more configured name appends its value, when present, to the optional data. */
  lemma OptionalValuesStep(request: Request, names: seq<string>, i: nat)
    requires i < |names|
    ensures Flatten(OptionalValues(request, names[..i + 1]))
         == Flatten(OptionalValues(request, names[..i])) + ValueOrEmpty(request, names[i])
  {
    PrefixStep(names, i);
    var before := OptionalValues(request, names[..i]);
    if names[i] in request {
      FlattenSnoc(before, request[names[i]]);
    } else {
      assert before + [] == before;
    }
  }

  /** The summing loop of `getAsciiSum`: `asciiSum += charAt(i)` on a Java `int`. */
  method SumCharCodes(dataString: string) returns (asciiSum: int)
    ensures asciiSum == WrapInt(CharSum(dataString))
    ensures IsInt(asciiSum)
  {
    asciiSum := 0;
    for i := 0 to |dataString|
      invariant asciiSum == WrapInt(CharSum(dataString[..i]))
    {
      SumStep(dataString, i, asciiSum);
      asciiSum := WrapInt(asciiSum + dataString[i] as int);
    }
    assert dataString[..|dataString|] == dataString;
  }

  /** Adding the next character code to the wrapped sum of a prefix wraps the longer prefix's sum. */
  lemma SumStep(data: string, i: nat, acc: int)
    requires i < |data| && acc == WrapInt(CharSum(data[..i]))
    ensures WrapInt(acc + data[i] as int) == WrapInt(CharSum(data[..i + 1]))
  {
    PrefixStep(data, i);
    WrapIntAdd(CharSum(data[..i]), data[i] as int);
  }

  lemma {:induction false} CharSumAppend(a: string, b: string)
    ensures CharSum(a + b) == CharSum(a) + CharSum(b)
    decreases |b|
  {
    if b == [] {
      assert a + b == a;
    } else {
      var init := b[..|b| - 1];
      assert (a + b)[..|a + b| - 1] == a + init;
      assert (a + b)[|a + b| - 1] == b[|b| - 1];
      CharSumAppend(a, init);
    }
  }

  /** The code sum depends only on which characters occur how often, not on their order. */
  lemma {:induction false} CharSumPermutation(a: string, b: string)
    requires multiset(a) == multiset(b)
    ensures CharSum(a) == CharSum(b)
    decreases |a|
  {
    if a != [] {
      var c := a[|a| - 1];
      var init := a[..|a| - 1];
      assert c in multiset(b);
      var j :| 0 <= j < |b| && b[j] == c;
      var rest := b[..j] + b[j + 1..];
      assert multiset(init) == multiset(rest) by {
        SplitAt(a, |a| - 1);
        SplitAt(b, j);
        CancelOne(multiset(init), multiset(rest), c);
      }
      CharSumPermutation(init, rest);
      assert CharSum(b) == CharSum(rest) + c as int by { CharSumRemoveAt(b, j); }
      assert CharSum(a) == CharSum(init) + c as int;
    }
  }

  lemma CancelOne<T>(x: multiset<T>, y: multiset<T>, c: T)
    requires x + multiset{c} == y + multiset{c}
    ensures x == y
  {
    assert x == (x + multiset{c}) - multiset{c};
  }

  /** Removing the character at `j` takes its code off the sum. */
  lemma CharSumRemoveAt(b: string, j: nat)
    requires j < |b|
    ensures CharSum(b) == CharSum(b[..j] + b[j + 1..]) + b[j] as int
  {
    SplitAt(b, j);
    CharSumMiddle(b[..j], b[j], b[j + 1..]);
  }

  lemma CharSumMiddle(before: string, c: char, after: string)
    ensures CharSum((before + [c]) + after) == CharSum(before + after) + c as int
  {
    CharSumAppend(before + [c], after);
    CharSumAppend(before, after);
    CharSumSnoc(before, c);
  }

  lemma CharSumSnoc(before: string, c: char)
    ensures CharSum(before + [c]) == CharSum(before) + c as int
  {
    assert (before + [c])[..|before|] == before;
  }

  lemma {:induction false} FlattenAppend(xs: seq<string>, ys: seq<string>)
    ensures Flatten(xs + ys) == Flatten(xs) + Flatten(ys)
    decreases |ys|
  {
    if ys == [] {
      assert xs + ys == xs;
    } else {
      var init := ys[..|ys| - 1];
      assert (xs + ys)[..|xs + ys| - 1] == xs + init;
      assert (xs + ys)[|xs + ys| - 1] == ys[|ys| - 1];
      FlattenAppend(xs, init);
    }
  }

  lemma PrefixStep<T>(s: seq<T>, i: nat)
    requires i < |s|
    ensures s[..i + 1][..i] == s[..i] && s[..i + 1][i] == s[i] && |s[..i + 1]| == i + 1
  {
  }

  lemma FlattenSnoc(xs: seq<string>, last: string)
    ensures Flatten(xs + [last]) == Flatten(xs) + last
  {
    SnocParts(xs, last);
  }

  lemma SnocParts<T>(s: seq<T>, x: T)
    ensures (s + [x])[..|s|] == s && (s + [x])[|s|] == x && |s + [x]| == |s| + 1
  {
  }

  /** A sequence is its prefix before `j`, its element at `j`, and the rest. */
  lemma SplitAt<T>(s: seq<T>, j: nat)
    requires j < |s|
    ensures s == (s[..j] + [s[j]]) + s[j + 1..]
    ensures (s[..j] + [s[j]])[..j] == s[..j]
    ensures multiset(s) == multiset(s[..j] + s[j + 1..]) + multiset{s[j]}
  {
    assert s == s[..j] + [s[j]] + s[j + 1..];
  }

  /** Removing the piece at `j` from a list splits its concatenation around that piece. */
  lemma FlattenAround(ys: seq<string>, j: nat)
    requires j < |ys|
    ensures Flatten(ys) == Flatten(ys[..j]) + ys[j] + Flatten(ys[j + 1..])
    ensures Flatten(ys[..j] + ys[j + 1..]) == Flatten(ys[..j]) + Flatten(ys[j + 1..])
  {
    SplitAt(ys, j);
    FlattenAppend(ys[..j] + [ys[j]], ys[j + 1..]);
    assert Flatten(ys[..j] + [ys[j]]) == Flatten(ys[..j]) + ys[j];
    FlattenAppend(ys[..j], ys[j + 1..]);
  }

  /** Reordering whole pieces keeps the characters of their concatenation. */
  lemma {:induction false} FlattenPermutation(xs: seq<string>, ys: seq<string>)
    requires multiset(xs) == multiset(ys)
    ensures multiset(Flatten(xs)) == multiset(Flatten(ys))
    decreases |xs|
  {
    if xs != [] {
      var k := |xs| - 1;
      var x := xs[k];
      SplitAt(xs, k);
      var init := xs[..k];
      assert xs[..k] + xs[k + 1..] == init;
      assert x in multiset(ys);
      var j :| 0 <= j < |ys| && ys[j] == x;
      SplitAt(ys, j);
      var rest := ys[..j] + ys[j + 1..];
      assert multiset(init) == multiset(xs) - multiset{x};
      assert multiset(rest) == multiset(ys) - multiset{x};
      FlattenPermutation(init, rest);
      FlattenAround(ys, j);
      var p, q := Flatten(ys[..j]), Flatten(ys[j + 1..]);
      assert multiset(Flatten(ys)) == multiset(p) + multiset(x) + multiset(q);
      assert multiset(Flatten(rest)) == multiset(p) + multiset(q);
      assert multiset(Flatten(xs)) == multiset(Flatten(init)) + multiset(x);
    }
  }

  /**
   * The insecure string is unchanged when the optional values are taken in
   * another order: the sum does not see the order of the values.
   */
  lemma InsecureIgnoresOptionalOrder(request: Request, cfg1: AuthConfig, cfg2: AuthConfig)
    requires cfg1.timestampParam == cfg2.timestampParam && cfg1.userIdParam == cfg2.userIdParam
    requires multiset(OptionalValues(request, cfg1.macParams)) == multiset(OptionalValues(request, cfg2.macParams))
    ensures InsecureString(request, cfg1) == InsecureString(request, cfg2)
  {
    var required := OrNull(Lookup(request, cfg1.timestampParam)) + OrNull(Lookup(request, cfg1.userIdParam));
    FlattenPermutation(OptionalValues(request, cfg1.macParams), OptionalValues(request, cfg2.macParams));
    CharSumPermutation(InsecureData(request, cfg1), InsecureData(request, cfg2));
  }

  lemma {:induction false} OptionalValuesAppend(request: Request, xs: seq<string>, ys: seq<string>)
    ensures OptionalValues(request, xs + ys) == OptionalValues(request, xs) + OptionalValues(request, ys)
    decreases |ys|
  {
    if ys == [] {
      assert xs + ys == xs;
    } else {
      var init := ys[..|ys| - 1];
      SnocParts(init, ys[|ys| - 1]);
      assert ys == init + [ys[|ys| - 1]];
      assert xs + ys == (xs + init) + [ys[|ys| - 1]];
      SnocParts(xs + init, ys[|ys| - 1]);
      OptionalValuesAppend(request, xs, init);
    }
  }

  /** The values of a single name: its value when present, nothing otherwise. */
  lemma OptionalValuesSingle(request: Request, x: string)
    ensures OptionalValues(request, [x]) == if x in request then [request[x]] else []
  {
    assert [x][..0] == [];
  }

  /** Removing the name at `j` removes exactly its contribution to the optional values. */
  lemma OptionalValuesAround(request: Request, ys: seq<string>, j: nat)
    requires j < |ys|
    ensures OptionalValues(request, ys)
         == OptionalValues(request, ys[..j]) + OptionalValues(request, [ys[j]]) + OptionalValues(request, ys[j + 1..])
    ensures OptionalValues(request, ys[..j] + ys[j + 1..])
         == OptionalValues(request, ys[..j]) + OptionalValues(request, ys[j + 1..])
  {
    SplitAt(ys, j);
    OptionalValuesAppend(request, ys[..j] + [ys[j]], ys[j + 1..]);
    OptionalValuesAppend(request, ys[..j], [ys[j]]);
    OptionalValuesAppend(request, ys[..j], ys[j + 1..]);
  }

  /** Reordering the configured optional names reorders their values and nothing more. */
  lemma {:induction false} OptionalValuesPermutation(request: Request, xs: seq<string>, ys: seq<string>)
    requires multiset(xs) == multiset(ys)
    ensures multiset(OptionalValues(request, xs)) == multiset(OptionalValues(request, ys))
    decreases |xs|
  {
    if xs != [] {
      var k := |xs| - 1;
      var x := xs[k];
      SplitAt(xs, k);
      var init := xs[..k];
      assert xs[..k] + xs[k + 1..] == init;
      assert x in multiset(ys);
      var j :| 0 <= j < |ys| && ys[j] == x;
      SplitAt(ys, j);
      var rest := ys[..j] + ys[j + 1..];
      assert multiset(init) == multiset(xs) - multiset{x};
      assert multiset(rest) == multiset(ys) - multiset{x};
      OptionalValuesPermutation(request, init, rest);
      OptionalValuesAround(request, ys, j);
      OptionalValuesAround(request, xs, k);
      assert xs[k + 1..] == [];
      var mid := OptionalValues(request, [x]);
      var p, q := OptionalValues(request, ys[..j]), OptionalValues(request, ys[j + 1..]);
      assert multiset(OptionalValues(request, ys)) == multiset(p) + multiset(mid) + multiset(q);
      assert multiset(OptionalValues(request, rest)) == multiset(p) + multiset(q);
      assert multiset(OptionalValues(request, xs)) == multiset(OptionalValues(request, init)) + multiset(mid);
      MultisetSwap(multiset(p), multiset(mid), multiset(q));
    }
  }

  lemma MultisetSwap<T>(a: multiset<T>, b: multiset<T>, c: multiset<T>)
    ensures a + b + c == (a + c) + b
  {
  }

  /** Reordering or repeating nothing but the order of the configured names keeps the insecure string. */
  lemma InsecureIgnoresParameterOrder(request: Request, cfg1: AuthConfig, cfg2: AuthConfig)
    requires cfg1.timestampParam == cfg2.timestampParam && cfg1.userIdParam == cfg2.userIdParam
    requires multiset(cfg1.macParams) == multiset(cfg2.macParams)
    ensures InsecureString(request, cfg1) == InsecureString(request, cfg2)
  {
    OptionalValuesPermutation(request, cfg1.macParams, cfg2.macParams);
    InsecureIgnoresOptionalOrder(request, cfg1, cfg2);
  }

  lemma {:induction false} OptionalValuesIgnoreOtherNames(request: Request, names: seq<string>, name: string, value: string)
    requires name !in names
    ensures OptionalValues(request[name := value], names) == OptionalValues(request, names)
    decreases |names|
  {
    if names != [] {
      OptionalValuesIgnoreOtherNames(request, names[..|names| - 1], name, value);
    }
  }

  /** A parameter that is none of the names the insecure string reads never influences it. */
  lemma InsecureIgnoresOtherParameters(request: Request, cfg: AuthConfig, name: string, value: string)
    requires name != cfg.timestampParam && name != cfg.userIdParam && name !in cfg.macParams
    ensures InsecureString(request[name := value], cfg) == InsecureString(request, cfg)
  {
    OptionalValuesIgnoreOtherNames(request, cfg.macParams, name, value);
  }

  // ---------------------------------------------------------------------
  // The MAC check
  // ---------------------------------------------------------------------

  /**
   * The verdict of `validateMac` for one algorithm: the timestamp parses and
   * is fresh, the digest of the data string followed by the shared secret
   * exists, the request carries a MAC, and the two agree ignoring case.
   */
  ghost function MacCheck(request: Request, now: int, cfg: AuthConfig, digest: Digest, usingSecure: bool): bool
    requires IsLong(now) && IsLong(cfg.range)
  {
    match ParseLong(Lookup(request, cfg.timestampParam))
    case None => false
    case Some(timestamp) =>
      if TimestampExpired(timestamp, now, cfg.range) then false
      else
        var data := if usingSecure then SecureString(request, cfg) else InsecureString(request, cfg);
        var realMac := digest(data + cfg.sharedSecret);
        var requestMac := Lookup(request, cfg.macParam);
        realMac.Some? && requestMac.Some? && EqualsIgnoreCase(realMac.value, requestMac.value)
  }

  /** The verdict of `validateMacInRequest`: an OR over the algorithms the configuration allows. */
  ghost function RequestVerdict(request: Request, now: int, cfg: AuthConfig, digest: Digest): bool
    requires IsLong(now) && IsLong(cfg.range)
  {
    (cfg.allowSecure && MacCheck(request, now, cfg, digest, true))
      || (cfg.allowInsecure && MacCheck(request, now, cfg, digest, false))
  }

  /** `validateMac`: fail on a bad or stale timestamp, otherwise hash and compare. */
  method ValidateMac(store: SettingsManager, request: Request, now: int, digest: Digest, usingSecure: bool)
    returns (valid: bool)
    requires IsLong(now)
    ensures valid == MacCheck(request, now, ReadConfig(store), digest, usingSecure)
  {
    var parsed := ParseLong(Lookup(request, GetTimestampRequestParameter(store)));
    if parsed.None? {
      return false;
    }
    var timestamp := parsed.value;
    if TimestampExpired(timestamp, now, GetTimestampRange(store)) {
      return false;
    }
    var algorithmResult: string;
    if usingSecure {
      algorithmResult := GetSortedValues(store, request);
    } else {
      algorithmResult := GetAsciiSum(store, request);
    }
    var realMac := digest(algorithmResult + GetSharedSecret(store));
    var requestMac := Lookup(request, GetMacRequestParameter(store));
    valid := realMac.Some? && requestMac.Some? && EqualsIgnoreCase(realMac.value, requestMac.value);
  }

  /**
   * `validateMacInRequest`: try the secure algorithm when allowed, then the
   * insecure one when allowed and the first did not already succeed.
   */
  method ValidateMacInRequest(store: SettingsManager, request: Request, now: int, digest: Digest)
    returns (macValid: bool)
    requires IsLong(now)
    ensures macValid == RequestVerdict(request, now, ReadConfig(store), digest)
  {
    macValid := false;
    if AllowSecureMac(store) && !macValid {
      macValid := ValidateMac(store, request, now, digest, true);
    }
    if AllowInsecureMac(store) && !macValid {
      macValid := ValidateMac(store, request, now, digest, false);
    }
  }

  /** With neither algorithm allowed, every request is rejected. */
  lemma NoAlgorithmRejects(request: Request, now: int, cfg: AuthConfig, digest: Digest)
    requires IsLong(now) && IsLong(cfg.range)
    requires !cfg.allowSecure && !cfg.allowInsecure
    ensures !RequestVerdict(request, now, cfg, digest)
  {
  }

  /**
   * The check fails closed: a missing or malformed timestamp, a missing MAC
   * parameter or a digest that cannot be computed each reject the request
   * under either algorithm.
   */
  lemma FailsClosed(request: Request, now: int, cfg: AuthConfig, digest: Digest, usingSecure: bool)
    requires IsLong(now) && IsLong(cfg.range)
    ensures ParseLong(Lookup(request, cfg.timestampParam)).None? ==> !MacCheck(request, now, cfg, digest, usingSecure)
    ensures cfg.macParam !in request ==> !MacCheck(request, now, cfg, digest, usingSecure)
    ensures digest((if usingSecure then SecureString(request, cfg) else InsecureString(request, cfg)) + cfg.sharedSecret).None?
      ==> !MacCheck(request, now, cfg, digest, usingSecure)
  {
  }

  /**
   * Acceptance needs a timestamp that parses and is within the window, and
   * a request MAC equal, ignoring case, to the digest of the data string
   * followed by the shared secret.
   */
  lemma AcceptedMeansAuthentic(request: Request, now: int, cfg: AuthConfig, digest: Digest, usingSecure: bool)
    requires IsLong(now) && IsLong(cfg.range)
    requires MacCheck(request, now, cfg, digest, usingSecure)
    ensures cfg.timestampParam in request && cfg.macParam in request
    ensures var timestamp := ParseLong(Some(request[cfg.timestampParam]));
      timestamp.Some? && !TimestampExpired(timestamp.value, now, cfg.range)
    ensures var data := if usingSecure then SecureString(request, cfg) else InsecureString(request, cfg);
      digest(data + cfg.sharedSecret).Some? &&
      LowerAscii(digest(data + cfg.sharedSecret).value) == LowerAscii(request[cfg.macParam])
  {
    var data := if usingSecure then SecureString(request, cfg) else InsecureString(request, cfg);
    EqualsIgnoreCaseIffSameLower(digest(data + cfg.sharedSecret).value, request[cfg.macParam]);
  }

  /**
   * When the MAC parameter is not itself one of the signed names, a MAC that
   * differs only in letter case gets the same verdict.
   */
  lemma MacComparisonIgnoresCase(request: Request, now: int, cfg: AuthConfig, digest: Digest,
                                 usingSecure: bool, mac1: string, mac2: string)
    requires IsLong(now) && IsLong(cfg.range)
    requires cfg.macParam != cfg.timestampParam && cfg.macParam != cfg.userIdParam && cfg.macParam !in cfg.macParams
    requires LowerAscii(mac1) == LowerAscii(mac2)
    ensures MacCheck(request[cfg.macParam := mac1], now, cfg, digest, usingSecure)
         == MacCheck(request[cfg.macParam := mac2], now, cfg, digest, usingSecure)
  {
    var k := cfg.macParam;
    var r1, r2 := request[k := mac1], request[k := mac2];
    assert r1[k := mac2] == r2;
    SecureIgnoresOtherParameters(r1, cfg, k, mac2);
    InsecureIgnoresOtherParameters(r1, cfg, k, mac2);
    var data := if usingSecure then SecureString(r1, cfg) else InsecureString(r1, cfg);
    var realMac := digest(data + cfg.sharedSecret);
    if realMac.Some? {
      EqualsIgnoreCaseIffSameLower(realMac.value, mac1);
      EqualsIgnoreCaseIffSameLower(realMac.value, mac2);
    }
  }
}
