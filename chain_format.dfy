/** The approval chain as the employee's expense listing carries it: the database
    concatenates each record as `order:status:First Last`, joined by `|`, and the
    controller splits the text back into `{order, status, approverName}` items. */
module ChainFormat {
  import opened Common
  import opened Store

  // ---------------------------------------------------------------------------
  // Splitting and joining on one separator character

  /** `s.split(sep)`: the pieces between separators; an empty text is one empty
      piece. */
  function Split(s: string, sep: char): (parts: seq<string>)
    ensures |parts| >= 1
    ensures forall k :: 0 <= k < |parts| ==> sep !in parts[k]
    decreases |s|
  {
    if |s| == 0 then [""]
    else
      var rest := Split(s[1..], sep);
      if s[0] == sep then [""] + rest
      else [[s[0]] + rest[0]] + rest[1..]
  }

  /** `parts.join(sep)`. */
  function Join(parts: seq<string>, sep: char): string
    requires |parts| >= 1
  {
    if |parts| == 1 then parts[0] else parts[0] + [sep] + Join(parts[1..], sep)
  }

  /** A text without the separator stays glued to whatever follows it. */
  lemma {:induction false} SplitGlues(a: string, rest: string, sep: char)
    requires sep !in a
    ensures Split(a + rest, sep) == [a + Split(rest, sep)[0]] + Split(rest, sep)[1..]
    decreases |a|
  {
    var r := Split(rest, sep);
    if |a| == 0 {
      assert a + rest == rest;
      assert a + r[0] == r[0];
      assert r == [r[0]] + r[1..];
    } else {
      SplitGlues(a[1..], rest, sep);
      assert (a + rest)[1..] == a[1..] + rest;
      assert [a[0]] + (a[1..] + r[0]) == a + r[0];
    }
  }

  /** A piece free of the separator, then the separator, splits off as the first
      part. */
  lemma SplitSep(a: string, b: string, sep: char)
    requires sep !in a
    ensures Split(a + [sep] + b, sep) == [a] + Split(b, sep)
  {
    SplitGlues(a, [sep] + b, sep);
    assert ([sep] + b)[1..] == b;
    assert Split([sep] + b, sep) == [""] + Split(b, sep);
    assert a + [sep] + b == a + ([sep] + b);
    assert a + "" == a;
  }

  /** Splitting undoes joining, when no piece holds the separator. */
  lemma {:induction false} SplitJoin(parts: seq<string>, sep: char)
    requires |parts| >= 1
    requires forall k :: 0 <= k < |parts| ==> sep !in parts[k]
    ensures Split(Join(parts, sep), sep) == parts
    decreases |parts|
  {
    if |parts| == 1 {
      SplitGlues(parts[0], "", sep);
      assert parts[0] + "" == parts[0];
      assert Split("", sep) == [""];
    } else {
      var tail := Join(parts[1..], sep);
      SplitJoin(parts[1..], sep);
      SplitGlues(parts[0], [sep] + tail, sep);
      assert ([sep] + tail)[1..] == tail;
      assert Split([sep] + tail, sep) == [""] + parts[1..];
      assert parts[0] + "" == parts[0];
      assert parts[0] + [sep] + tail == parts[0] + ([sep] + tail);
      assert [parts[0]] + parts[1..] == parts;
    }
  }

  /** Joining undoes splitting, for every text. */
  lemma {:induction false} JoinSplit(s: string, sep: char)
    ensures Join(Split(s, sep), sep) == s
    decreases |s|
  {
    if |s| > 0 {
      JoinSplit(s[1..], sep);
      var rest := Split(s[1..], sep);
      if s[0] == sep {
        assert ([""] + rest)[1..] == rest;
        assert s == [sep] + s[1..];
      } else {
        var parts := [[s[0]] + rest[0]] + rest[1..];
        if |rest| == 1 {
          assert s == [s[0]] + s[1..];
        } else {
          assert parts[1..] == rest[1..];
          assert rest == [rest[0]] + rest[1..];
          assert Join(rest, sep) == rest[0] + [sep] + Join(rest[1..], sep);
          assert s == [s[0]] + s[1..];
        }
      }
    }
  }

  // ---------------------------------------------------------------------------
  // Integers as text

  predicate IsDigit(c: char)
  {
    '0' <= c <= '9'
  }

  predicate AllDigits(s: string)
  {
    forall i :: 0 <= i < |s| ==> IsDigit(s[i])
  }

  function DigitChar(d: int): (c: char)
    requires 0 <= d < 10
    ensures IsDigit(c)
  {
    ('0' as int + d) as char
  }

  /** The decimal digits of `n`, as the database prints a number. */
  function NatToString(n: nat): (s: string)
    ensures |s| > 0 && AllDigits(s)
  {
    if n < 10 then [DigitChar(n)] else NatToString(n / 10) + [DigitChar(n % 10)]
  }

  /** An integer as the database prints it: a minus sign for negatives. */
  function IntToString(i: int): (s: string)
    ensures ':' !in s && '|' !in s
  {
    if i < 0 then "-" + NatToString(-i) else NatToString(i)
  }

  /** The value of a run of decimal digits. */
  function DigitsValue(s: string): nat
    requires AllDigits(s)
  {
    if s == [] then 0 else DigitsValue(s[..|s| - 1]) * 10 + (s[|s| - 1] as int - '0' as int)
  }

  /** The length of the leading run of digits. */
  function DigitPrefix(s: string): (n: nat)
    ensures n <= |s| && AllDigits(s[..n])
    ensures n < |s| ==> !IsDigit(s[n])
  {
    if |s| == 0 || !IsDigit(s[0]) then 0
    else
      var n := 1 + DigitPrefix(s[1..]);
      assert s[..n] == [s[0]] + s[1..][..n - 1];
      n
  }

  /** `parseInt(s)`: an optional sign and the leading digits; with no digit the
      result is not a number (`None`). */
  function ParseInt(s: string): Option<int>
  {
    var negative := |s| > 0 && s[0] == '-';
    var body := if |s| > 0 && (s[0] == '-' || s[0] == '+') then s[1..] else s;
    var n := DigitPrefix(body);
    if n == 0 then None
    else
      var v: int := DigitsValue(body[..n]);
      Some(if negative then -v else v)
  }

  lemma {:induction false} DigitsValueOfNat(n: nat)
    ensures DigitsValue(NatToString(n)) == n
    decreases n
  {
    var s := NatToString(n);
    if n >= 10 {
      DigitsValueOfNat(n / 10);
      assert s[..|s| - 1] == NatToString(n / 10);
    } else {
      assert s[..|s| - 1] == [];
    }
  }

  lemma AllDigitsPrefix(s: string)
    requires AllDigits(s)
    ensures DigitPrefix(s) == |s|
  {
  }

  /** Reading back a printed integer gives the integer. */
  lemma ParseIntInverse(i: int)
    ensures ParseInt(IntToString(i)) == Some(i)
  {
    var s := IntToString(i);
    var digits := NatToString(if i < 0 then -i else i);
    AllDigitsPrefix(digits);
    DigitsValueOfNat(if i < 0 then -i else i);
    assert digits[..|digits|] == digits;
    if i < 0 {
      assert s[1..] == digits;
    }
  }

  // ---------------------------------------------------------------------------
  // The approval chain text

  function StatusText(s: Status): (t: string)
    ensures ':' !in t && '|' !in t
  {
    match s
    case Pending => "pending"
    case Approved => "approved"
    case Rejected => "rejected"
  }

  /** One ledger record as the chain lists it. */
  datatype ChainItem = ChainItem(order: int, status: Status, name: string)

  /** One decoded item: `parseInt` of the order (`None` is NaN), the status text and
      the approver's name; a missing field is `None` (`undefined`). */
  datatype ParsedApproval = ParsedApproval(order: Option<int>, status: Option<string>, approverName: Option<string>)

  /** The records of an expense, in step order, joined with their approvers: a
      record whose approver has no user row makes `CONCAT` null and is skipped. */
  function ChainItems(records: seq<ApprovalRecord>, users: seq<User>): (items: seq<ChainItem>)
    ensures |items| <= |records|
    ensures (forall k :: 0 <= k < |records| ==> 1 <= records[k].approverId <= |users|) ==>
              && |items| == |records|
              && forall k :: 0 <= k < |items| ==>
                   items[k] == ChainItem(records[k].stepOrder, records[k].status, ApproverName(users[records[k].approverId - 1]))
  {
    if records == [] then []
    else
      var n := |records| - 1;
      var a := records[n];
      ChainItems(records[..n], users)
        + (if 1 <= a.approverId <= |users| then [ChainItem(a.stepOrder, a.status, ApproverName(users[a.approverId - 1]))] else [])
  }

  /** `CONCAT(first_name, ' ', last_name)`. */
  function ApproverName(u: User): string
  {
    u.firstName + " " + u.lastName
  }

  function EncodeItem(it: ChainItem): string
  {
    IntToString(it.order) + ":" + StatusText(it.status) + ":" + it.name
  }

  /** The `approval_chain` column: null when no item, else the items joined by `|`. */
  function EncodeChain(items: seq<ChainItem>): (chain: Option<string>)
    ensures chain.None? <==> items == []
  {
    if items == [] then None else Some(Join(seq(|items|, k requires 0 <= k < |items| => EncodeItem(items[k])), '|'))
  }

  function Field(parts: seq<string>, k: nat): Option<string>
  {
    if k < |parts| then Some(parts[k]) else None
  }

  /** `const [order, status, name] = item.split(':')`. */
  function DecodeItem(item: string): ParsedApproval
  {
    var fields := Split(item, ':');
    ParsedApproval(ParseInt(fields[0]), Field(fields, 1), Field(fields, 2))
  }

  /** The decoded `approvals` list: empty for a null or empty chain, else one item
      per `|`-separated piece. */
  function ParseChain(chain: Option<string>): (approvals: seq<ParsedApproval>)
    ensures chain.None? ==> approvals == []
    ensures chain.Some? && chain.value != "" ==> |approvals| == |Split(chain.value, '|')|
  {
    if chain.None? || chain.value == "" then []
    else
      var items := Split(chain.value, '|');
      seq(|items|, k requires 0 <= k < |items| => DecodeItem(items[k]))
  }

  /** Names free of `:` and `|` survive the round trip. */
  predicate PlainName(name: string)
  {
    ':' !in name && '|' !in name
  }

  /** What the listing should show for an item. */
  function Expected(it: ChainItem): ParsedApproval
  {
    ParsedApproval(Some(it.order), Some(StatusText(it.status)), Some(it.name))
  }

  lemma DecodeEncodedItem(it: ChainItem)
    requires PlainName(it.name)
    ensures DecodeItem(EncodeItem(it)) == Expected(it)
  {
    var parts := [IntToString(it.order), StatusText(it.status), it.name];
    assert Join(parts, ':') == EncodeItem(it) by {
      assert Join(parts[1..], ':') == StatusText(it.status) + ":" + it.name by {
        assert parts[1..][1..] == [it.name];
      }
    }
    SplitJoin(parts, ':');
    ParseIntInverse(it.order);
  }

  /** Decoding the chain text gives back every item, in step order, when no name
      holds a `:` or a `|`. */
  lemma ChainRoundTrip(items: seq<ChainItem>)
    requires forall k :: 0 <= k < |items| ==> PlainName(items[k].name)
    ensures var parsed := ParseChain(EncodeChain(items));
            && |parsed| == |items|
            && forall k :: 0 <= k < |items| ==> parsed[k] == Expected(items[k])
  {
    if items != [] {
      var pieces := seq(|items|, k requires 0 <= k < |items| => EncodeItem(items[k]));
      forall k | 0 <= k < |pieces| ensures '|' !in pieces[k] {
        assert pieces[k] == IntToString(items[k].order) + ":" + StatusText(items[k].status) + ":" + items[k].name;
      }
      SplitJoin(pieces, '|');
      assert Join(pieces, '|') != "" by {
        assert Split(Join(pieces, '|'), '|') == pieces;
        if |pieces| == 1 {
          assert |pieces[0]| > 0 by { assert pieces[0][|IntToString(items[0].order)|] == ':'; }
        }
      }
      forall k | 0 <= k < |items| ensures ParseChain(EncodeChain(items))[k] == Expected(items[k]) {
        DecodeEncodedItem(items[k]);
      }
    }
  }

  /** A name holding a `:` comes back cut at its first `:`. */
  lemma ColonCutsName(order: int, status: Status, before: string, after: string)
    requires PlainName(before) && '|' !in after
    ensures DecodeItem(EncodeItem(ChainItem(order, status, before + ":" + after))).approverName == Some(before)
  {
    var name := before + ":" + after;
    SplitSep(before, after, ':');
    SplitSep(StatusText(status), name, ':');
    SplitSep(IntToString(order), StatusText(status) + ":" + name, ':');
    assert EncodeItem(ChainItem(order, status, name)) == IntToString(order) + ":" + (StatusText(status) + ":" + name);
  }

}
