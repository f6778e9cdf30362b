/** Turning the text fields of freshly loaded rows into numbers. Vote counts
    may carry thousands separators ("5,000,000"), which the plain number
    conversion rejects; for those the votes are parsed again with the commas
    removed. Both number parsers are parameters: `toNumber` for the unary
    plus conversion and `parseFloat` for the prefix parser; `None` stands
    for NaN. */
module Coercion {
  import opened Wrappers

  /** A field as loaded (text) or after conversion (a number, maybe NaN). */
  datatype Field = Text(s: string) | Number(n: Option<real>)

  predicate IsNaN(f: Field) {
    f == Number(None)
  }

  /** Unary plus: text is parsed, a number stays as it is. */
  function ToNumber(f: Field, toNumber: string -> Option<real>): (r: Field)
    ensures r.Number?
    ensures f.Number? ==> r == f
  {
    match f
    case Text(s) => Number(toNumber(s))
    case Number(_) => f
  }

  /** The string with every comma taken out, the rest in order. */
  function StripCommas(s: string): (r: string)
    ensures forall k :: 0 <= k < |r| ==> r[k] != ','
    ensures (forall k :: 0 <= k < |s| ==> s[k] != ',') ==> r == s
  {
    if s == [] then []
    else (if s[0] == ',' then [] else [s[0]]) + StripCommas(s[1..])
  }

  /** Stripping removes the commas and nothing else: every other character
      keeps its number of occurrences. */
  lemma {:induction false} StripCommasKeepsOthers(s: string)
    ensures multiset(StripCommas(s)) == multiset(s)[',' := 0]
  {
    if s != [] {
      assert s == [s[0]] + s[1..];
      StripCommasKeepsOthers(s[1..]);
    }
  }

  /** Stripping commas distributes over concatenation: it keeps the order of
      what remains. */
  lemma {:induction false} StripCommasAppend(a: string, b: string)
    ensures StripCommas(a + b) == StripCommas(a) + StripCommas(b)
  {
    if a == [] {
      assert a + b == b;
    } else {
      assert (a + b)[1..] == a[1..] + b;
      StripCommasAppend(a[1..], b);
    }
  }

  /** Stripping twice is stripping once. */
  lemma StripCommasIdempotent(s: string)
    ensures StripCommas(StripCommas(s)) == StripCommas(s)
  {
  }

  /** removeCommas: parseFloat of the string without its commas; a string
      without commas parses as it is. */
  function RemoveCommas(num: string, parseFloat: string -> Option<real>): (r: Option<real>)
    ensures (forall k :: 0 <= k < |num| ==> num[k] != ',') ==> r == parseFloat(num)
  {
    parseFloat(StripCommas(num))
  }

  /** The five numeric fields of a row. */
  datatype Numbers = Numbers(totalEV: Field, dVotes: Field, rVotes: Field, dPercentage: Field, rPercentage: Field)

  /** What one pass of the conversion loop does to a row's numeric fields:
      all five go through unary plus; then, only if either vote field came
      out NaN, both vote fields are parsed again from their original text
      with the commas removed. */
  function Coerce(f: Numbers, toNumber: string -> Option<real>, parseFloat: string -> Option<real>): Numbers
    requires f.dVotes.Text? && f.rVotes.Text?
  {
    var c := Numbers(ToNumber(f.totalEV, toNumber), ToNumber(f.dVotes, toNumber), ToNumber(f.rVotes, toNumber),
                     ToNumber(f.dPercentage, toNumber), ToNumber(f.rPercentage, toNumber));
    if IsNaN(c.dVotes) || IsNaN(c.rVotes) then
      c.(dVotes := Number(RemoveCommas(f.dVotes.s, parseFloat)), rVotes := Number(RemoveCommas(f.rVotes.s, parseFloat)))
    else c
  }

  /** After conversion all five numeric fields hold numbers. The electoral
      votes and the percentages are the unary-plus results whatever happens
      to the votes: the comma fallback touches the two vote fields only. */
  lemma CoerceScope(f: Numbers, toNumber: string -> Option<real>, parseFloat: string -> Option<real>)
    requires f.dVotes.Text? && f.rVotes.Text?
    ensures var c := Coerce(f, toNumber, parseFloat);
      c.totalEV.Number? && c.dVotes.Number? && c.rVotes.Number? && c.dPercentage.Number? && c.rPercentage.Number?
    ensures var c := Coerce(f, toNumber, parseFloat);
      c.totalEV == ToNumber(f.totalEV, toNumber) &&
      c.dPercentage == ToNumber(f.dPercentage, toNumber) && c.rPercentage == ToNumber(f.rPercentage, toNumber)
  {
  }

  /** The vote fields keep their unary-plus values exactly when neither of
      them is NaN; otherwise both are re-parsed from the original text with
      commas removed, even the one that had parsed. */
  lemma CoerceVotes(f: Numbers, toNumber: string -> Option<real>, parseFloat: string -> Option<real>)
    requires f.dVotes.Text? && f.rVotes.Text?
    ensures var c := Coerce(f, toNumber, parseFloat);
      toNumber(f.dVotes.s).Some? && toNumber(f.rVotes.s).Some? ==>
        c.dVotes == Number(toNumber(f.dVotes.s)) && c.rVotes == Number(toNumber(f.rVotes.s))
    ensures var c := Coerce(f, toNumber, parseFloat);
      toNumber(f.dVotes.s).None? || toNumber(f.rVotes.s).None? ==>
        c.dVotes == Number(parseFloat(StripCommas(f.dVotes.s))) && c.rVotes == Number(parseFloat(StripCommas(f.rVotes.s)))
  {
  }

  /** Vote counts written with thousands separators: if unary plus rejects
      "5,000,000" and "4,000,000" and parseFloat reads "5000000" and
      "4000000" as those numbers, the converted row holds 5000000 and
      4000000. */
  lemma ThousandsSeparators(f: Numbers, toNumber: string -> Option<real>, parseFloat: string -> Option<real>)
    requires f.dVotes == Text("5,000,000") && f.rVotes == Text("4,000,000")
    requires toNumber("5,000,000") == None
    requires parseFloat("5000000") == Some(5000000.0) && parseFloat("4000000") == Some(4000000.0)
    ensures Coerce(f, toNumber, parseFloat).dVotes == Number(Some(5000000.0))
    ensures Coerce(f, toNumber, parseFloat).rVotes == Number(Some(4000000.0))
  {
    StripSeparators();
  }

  /** "5,000,000" and "4,000,000" lose their two commas and nothing else. */
  lemma StripSeparators()
    ensures StripCommas("5,000,000") == "5000000"
    ensures StripCommas("4,000,000") == "4000000"
  {
    StripGroups();
    var s: string := "5,000,000";
    assert s[0] == '5' && s[1..] == ",000,000";
    assert StripCommas(s) == ['5'] + StripCommas(s[1..]);
    assert ['5'] + "000000" == "5000000";
    var t: string := "4,000,000";
    assert t[0] == '4' && t[1..] == ",000,000";
    assert StripCommas(t) == ['4'] + StripCommas(t[1..]);
    assert ['4'] + "000000" == "4000000";
  }

  /** Two comma-led groups of three zeros strip to six zeros. */
  lemma StripGroups()
    ensures StripCommas(",000,000") == "000000"
  {
    var group: string := ",000";
    assert group[1..] == "000";
    StripCommasAppend(group, group);
    assert group + group == ",000,000";
  }

  /** Everything a row holds: its text fields and its numeric fields. */
  datatype RowState = RowState(abbreviation: string, state: string, dNominee: string, rNominee: string, numbers: Numbers)

  /** A row whose vote fields are still text, as the loader delivers it. */
  predicate Loaded(r: RowState) {
    r.numbers.dVotes.Text? && r.numbers.rVotes.Text?
  }

  /** One row after conversion: numeric fields converted, text fields kept. */
  function CoerceRow(r: RowState, toNumber: string -> Option<real>, parseFloat: string -> Option<real>): RowState
    requires Loaded(r)
  {
    r.(numbers := Coerce(r.numbers, toNumber, parseFloat))
  }

  /** A row of the results table, converted in place. */
  class Row {
    var abbreviation: string
    var state: string
    var dNominee: string
    var rNominee: string
    var totalEV: Field
    var dVotes: Field
    var rVotes: Field
    var dPercentage: Field
    var rPercentage: Field

    constructor (abbreviation: string, state: string, dNominee: string, rNominee: string,
                 totalEV: string, dVotes: string, rVotes: string, dPercentage: string, rPercentage: string)
      ensures Snapshot() == RowState(abbreviation, state, dNominee, rNominee,
        Numbers(Text(totalEV), Text(dVotes), Text(rVotes), Text(dPercentage), Text(rPercentage)))
    {
      this.abbreviation, this.state := abbreviation, state;
      this.dNominee, this.rNominee := dNominee, rNominee;
      this.totalEV, this.dVotes, this.rVotes := Text(totalEV), Text(dVotes), Text(rVotes);
      this.dPercentage, this.rPercentage := Text(dPercentage), Text(rPercentage);
    }

    function Snapshot(): RowState
      reads this
    {
      RowState(abbreviation, state, dNominee, rNominee, Numbers(totalEV, dVotes, rVotes, dPercentage, rPercentage))
    }

    /** The body of the conversion loop for one row: the numeric fields are
        overwritten in place, the text fields are left alone. */
    method CoerceFields(toNumber: string -> Option<real>, parseFloat: string -> Option<real>)
      requires Loaded(Snapshot())
      modifies this
      ensures Snapshot() == CoerceRow(old(Snapshot()), toNumber, parseFloat)
    {
      var origD, origR := dVotes, rVotes;
      totalEV := ToNumber(totalEV, toNumber);
      dVotes := ToNumber(dVotes, toNumber);
      rVotes := ToNumber(rVotes, toNumber);
      dPercentage := ToNumber(dPercentage, toNumber);
      rPercentage := ToNumber(rPercentage, toNumber);
      if IsNaN(dVotes) || IsNaN(rVotes) {
        dVotes := Number(RemoveCommas(origD.s, parseFloat));
        rVotes := Number(RemoveCommas(origR.s, parseFloat));
      }
    }
  }

  /** The conversion loop over all loaded rows: each row is converted once;
      rows are distinct objects, as the loader makes them. */
  method CoerceRows(data: seq<Row>, toNumber: string -> Option<real>, parseFloat: string -> Option<real>)
    requires forall i, j :: 0 <= i < j < |data| ==> data[i] != data[j]
    requires forall i :: 0 <= i < |data| ==> Loaded(data[i].Snapshot())
    modifies set i | 0 <= i < |data| :: data[i]
    ensures forall i :: 0 <= i < |data| ==> data[i].Snapshot() == CoerceRow(old(data[i].Snapshot()), toNumber, parseFloat)
  {
    for k := 0 to |data|
      invariant forall i :: 0 <= i < k ==> data[i].Snapshot() == CoerceRow(old(data[i].Snapshot()), toNumber, parseFloat)
      invariant forall i :: k <= i < |data| ==> data[i].Snapshot() == old(data[i].Snapshot())
    {
      data[k].CoerceFields(toNumber, parseFloat);
    }
  }
}
