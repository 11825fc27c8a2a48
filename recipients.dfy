/**
 * The recipient list: how the `-e` argument becomes a list of addresses,
 * how a lone address is wrapped into a list, and how the list becomes the
 * `To` header.
 */
module Recipients {
  import opened PyStr

  /** An address as parsing leaves it: no comma in it, no whitespace around it. */
  predicate IsCleanEntry(e: string) {
    ',' !in e && IsStripped(e)
  }

  /**
   * `[s.strip() for s in email.split(',')]`: one entry per comma-separated
   * field, in order, each with its surrounding whitespace removed. Nothing is
   * validated, so an empty argument gives one empty entry.
   */
  function ParseRecipients(email: string): (rs: seq<string>)
    ensures |rs| == Count(email, ',') + 1
    ensures forall i :: 0 <= i < |rs| ==> IsCleanEntry(rs[i])
    ensures forall i :: 0 <= i < |rs| ==> rs[i] == Strip(Split(email, ',')[i])
    ensures email == "" ==> rs == [""]
  {
    var fields := Split(email, ',');
    StripKeepsOut(fields, ',');
    seq(|fields|, i requires 0 <= i < |fields| => Strip(fields[i]))
  }

  /** `", ".join(recipients)`: the `To` header. */
  function JoinRecipients(rs: seq<string>): string {
    Join(rs, ", ")
  }

  /** What `notify` receives as `recipients`: a list or tuple, or any other single value. */
  datatype RecipientsArg = Sequence(items: seq<string>) | Single(item: string)

  /** A list or tuple is used as it is; anything else becomes a one-element list. */
  function Normalize(arg: RecipientsArg): (rs: seq<string>)
    ensures arg.Sequence? ==> rs == arg.items
    ensures arg.Single? ==> rs == [arg.item]
  {
    match arg
    case Sequence(items) => items
    case Single(item) => [item]
  }

  /** Normalizing is idempotent: its result, passed again as a list, is kept. */
  lemma NormalizeIdempotent(arg: RecipientsArg)
    ensures Normalize(Sequence(Normalize(arg))) == Normalize(arg)
  {
  }

  /** Every entry after the first, with the blank the `To` header puts before it. */
  function Indented(rs: seq<string>): (r: seq<string>)
    ensures |r| == |rs| && forall k :: 0 <= k < |rs| ==> r[k] == " " + rs[k]
  {
    seq(|rs|, k requires 0 <= k < |rs| => " " + rs[k])
  }

  /**
   * The `To` header read back as comma-separated fields: the first entry,
   * then every later entry preceded by one blank, in the original order.
   */
  lemma {:induction false} HeaderFields(rs: seq<string>)
    requires |rs| >= 1
    ensures Join(rs, ", ") == Join([rs[0]] + Indented(rs[1..]), [','])
  {
    if |rs| > 1 {
      HeaderFields(rs[1..]);
      var tail := rs[1..];
      assert tail[1..] == rs[2..];
      assert Indented(tail) == [" " + tail[0]] + Indented(tail[1..]);
      JoinPrependFirst(" ", tail[0], Indented(tail[1..]), [',']);
      assert ([rs[0]] + Indented(tail))[1..] == Indented(tail);
    }
  }

  /** Each field of the `To` header is comma-free and strips back to its recipient. */
  lemma HeaderFieldsStrip(rs: seq<string>)
    requires |rs| >= 1
    requires forall i :: 0 <= i < |rs| ==> IsCleanEntry(rs[i])
    ensures var fields := [rs[0]] + Indented(rs[1..]);
      forall i :: 0 <= i < |fields| ==> ',' !in fields[i] && Strip(fields[i]) == rs[i]
  {
    var fields := [rs[0]] + Indented(rs[1..]);
    forall i | 0 <= i < |fields|
      ensures ',' !in fields[i] && Strip(fields[i]) == rs[i]
    {
      StripFixed(rs[i]);
      if i > 0 {
        assert fields[i] == " " + rs[i];
        StripSpacePrefix(" ", rs[i]);
      }
    }
  }

  lemma ParseOfFields(header: string, fields: seq<string>, rs: seq<string>)
    requires Split(header, ',') == fields && |fields| == |rs|
    requires forall i :: 0 <= i < |fields| ==> Strip(fields[i]) == rs[i]
    ensures ParseRecipients(header) == rs
  {
  }

  /**
   * Parsing the `To` header gives back the recipient list, when the list is
   * non-empty and no entry holds a comma or surrounding whitespace.
   */
  lemma ParseJoinRoundTrip(rs: seq<string>)
    requires |rs| >= 1
    requires forall i :: 0 <= i < |rs| ==> IsCleanEntry(rs[i])
    ensures ParseRecipients(JoinRecipients(rs)) == rs
  {
    var fields := [rs[0]] + Indented(rs[1..]);
    HeaderFieldsStrip(rs);
    HeaderFields(rs);
    JoinThenSplit(fields, ',');
    ParseOfFields(JoinRecipients(rs), fields, rs);
  }

  /**
   * What parsing produces always satisfies the round trip: re-parsing the
   * `To` header built from a parsed `-e` argument gives the same list.
   */
  lemma ParseJoinParse(email: string)
    ensures ParseRecipients(JoinRecipients(ParseRecipients(email))) == ParseRecipients(email)
  {
    ParseJoinRoundTrip(ParseRecipients(email));
  }
}
