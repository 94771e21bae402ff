/**
 * The Banco de Galicia import adapter: it strips the export's preamble, turns
 * every CSV row into a staged row (signed amount, cleaned description,
 * configured columns with their defaults), replaces the staged rows as a
 * whole, and commits one ledger entry per staged row.
 */
module BancoDeGalicia {
  import opened Wrappers
  import Text
  import Amount

  /** One parsed CSV row: header label to field text; a missing key is Ruby's nil. */
  type CsvRow = map<string, string>

  /** `parse_csv_str(content, col_sep:)` of the generic import, left abstract. */
  type CsvParser = (string, string) -> seq<CsvRow>

  /** The separator `csv_rows` passes to the parser. */
  const ColSep := ";"

  /** The description column, read by its literal name. */
  const DescriptionLabel := "Movimiento"

  /** One staged (not yet committed) row, as `generate_rows_from_csv` inserts it. */
  datatype StagedRow = StagedRow(
    account: string, date: string, amount: string, currency: string,
    name: string, category: string, tags: string, notes: string)

  /** The configured column labels a staged row is read through; nil is `None`. */
  datatype ColumnLabels = ColumnLabels(
    account: Option<string>, date: Option<string>, currency: Option<string>,
    category: Option<string>, tags: Option<string>, notes: Option<string>)

  /** `row[column]`: nil for a nil column label and for a column the row does not hold. */
  function Field(row: CsvRow, column: Option<string>): Option<string>
  {
    if column.Some? && column.value in row then Some(row[column.value]) else None
  }

  /** Ruby's `to_s` on a string or nil. */
  function ToS(v: Option<string>): string
  {
    v.GetOr("")
  }

  /** `row["Movimiento"].to_s.gsub(/\s+/, " ").strip`. */
  function Description(row: CsvRow): string
  {
    Text.Clean(ToS(Field(row, Some(DescriptionLabel))))
  }

  /** `description.presence || default_row_name`. */
  function RowName(description: string, defaultRowName: string): string
  {
    if Text.IsBlank(description) then defaultRowName else description
  }

  /** The hash that the `map` block of `generate_rows_from_csv` builds for one CSV row. */
  function BuildRow(row: CsvRow, labels: ColumnLabels, sanitize: string -> string,
                    defaultCurrency: string, defaultRowName: string): StagedRow
  {
    StagedRow(
      account := ToS(Field(row, labels.account)),
      date := ToS(Field(row, labels.date)),
      amount := Amount.CombineDebitCredit(
        Field(row, Some(Amount.DebitLabel)), Field(row, Some(Amount.CreditLabel)), sanitize),
      currency := Field(row, labels.currency).GetOr(defaultCurrency),
      name := RowName(Description(row), defaultRowName),
      category := ToS(Field(row, labels.category)),
      tags := ToS(Field(row, labels.tags)),
      notes := ToS(Field(row, labels.notes)))
  }

  /** `csv_rows.map { ... }`. */
  function StageAll(csv: seq<CsvRow>, labels: ColumnLabels, sanitize: string -> string,
                    defaultCurrency: string, defaultRowName: string): seq<StagedRow>
  {
    seq(|csv|, i requires 0 <= i < |csv| => BuildRow(csv[i], labels, sanitize, defaultCurrency, defaultRowName))
  }

  /** One CSV row stages to exactly its own hash. */
  lemma StageOne(row: CsvRow, labels: ColumnLabels, sanitize: string -> string,
                 defaultCurrency: string, defaultRowName: string)
    ensures StageAll([row], labels, sanitize, defaultCurrency, defaultRowName)
            == [BuildRow(row, labels, sanitize, defaultCurrency, defaultRowName)]
  {
    var staged := StageAll([row], labels, sanitize, defaultCurrency, defaultRowName);
    assert staged[0] == BuildRow([row][0], labels, sanitize, defaultCurrency, defaultRowName);
  }

  /** Staging is row by row: staging a concatenation is staging each part, in order. */
  lemma StageAllAppend(a: seq<CsvRow>, b: seq<CsvRow>, labels: ColumnLabels, sanitize: string -> string,
                       defaultCurrency: string, defaultRowName: string)
    ensures StageAll(a + b, labels, sanitize, defaultCurrency, defaultRowName)
            == StageAll(a, labels, sanitize, defaultCurrency, defaultRowName)
               + StageAll(b, labels, sanitize, defaultCurrency, defaultRowName)
  {
    var sa := StageAll(a, labels, sanitize, defaultCurrency, defaultRowName);
    var sb := StageAll(b, labels, sanitize, defaultCurrency, defaultRowName);
    var sab := StageAll(a + b, labels, sanitize, defaultCurrency, defaultRowName);
    assert |sab| == |sa + sb|;
    forall i | 0 <= i < |sab|
      ensures sab[i] == (sa + sb)[i]
    {
      if i < |a| {
        assert (a + b)[i] == a[i];
        assert sab[i] == sa[i];
      } else {
        assert (a + b)[i] == b[i - |a|];
        assert sab[i] == sb[i - |a|];
      }
    }
  }

  /**
   * Columns that are not configured or not in the row read as "", except the
   * currency, which falls back to the default; configured columns present in
   * the row are copied verbatim.
   */
  lemma MissingColumns(row: CsvRow, labels: ColumnLabels, sanitize: string -> string,
                       defaultCurrency: string, defaultRowName: string)
    ensures var r := BuildRow(row, labels, sanitize, defaultCurrency, defaultRowName);
      && (labels.currency.None? ==> r.currency == defaultCurrency)
      && (labels.currency.Some? && labels.currency.value !in row ==> r.currency == defaultCurrency)
      && (labels.currency.Some? && labels.currency.value in row ==> r.currency == row[labels.currency.value])
      && (labels.account.None? ==> r.account == "")
      && (labels.category.None? ==> r.category == "")
      && (labels.tags.None? ==> r.tags == "")
      && (labels.notes.None? ==> r.notes == "")
      && (labels.date.None? ==> r.date == "")
      && (labels.account.Some? ==> r.account == if labels.account.value in row then row[labels.account.value] else "")
      && (labels.notes.Some? ==> r.notes == if labels.notes.value in row then row[labels.notes.value] else "")
      && (labels.date.Some? ==> r.date == if labels.date.value in row then row[labels.date.value] else "")
      && (labels.category.Some? ==> r.category == if labels.category.value in row then row[labels.category.value] else "")
      && (labels.tags.Some? ==> r.tags == if labels.tags.value in row then row[labels.tags.value] else "")
  {
  }

  /**
   * The staged name is the cleaned description, or the default name when that
   * is blank; so it is a single line without doubled or edge whitespace, and
   * it is never empty when the default name is not.
   */
  lemma RowNameShape(row: CsvRow, labels: ColumnLabels, sanitize: string -> string,
                     defaultCurrency: string, defaultRowName: string)
    ensures var r := BuildRow(row, labels, sanitize, defaultCurrency, defaultRowName);
      var d := Description(row);
      && (r.name == defaultRowName || r.name == d)
      && (Text.IsBlank(d) ==> r.name == defaultRowName)
      && (!Text.IsBlank(d) ==>
            (&& r.name == d && r.name != [] && Text.SingleSpaced(r.name)
             && (forall i :: 0 <= i < |r.name| ==> r.name[i] != '\n')
             && !Text.IsStripSpace(r.name[0]) && !Text.IsStripSpace(r.name[|r.name| - 1])))
      && (defaultRowName != [] ==> r.name != [])
  {
    Text.CleanShape(ToS(Field(row, Some(DescriptionLabel))));
  }

  /** The amount depends on the `Débito` and `Crédito` columns only. */
  lemma AmountFromDebitAndCredit(row1: CsvRow, row2: CsvRow, labels1: ColumnLabels, labels2: ColumnLabels,
                                 sanitize: string -> string, c1: string, c2: string, n1: string, n2: string)
    requires Field(row1, Some(Amount.DebitLabel)) == Field(row2, Some(Amount.DebitLabel))
    requires Field(row1, Some(Amount.CreditLabel)) == Field(row2, Some(Amount.CreditLabel))
    ensures BuildRow(row1, labels1, sanitize, c1, n1).amount == BuildRow(row2, labels2, sanitize, c2, n2).amount
  {
  }

  /** The column labels `set_mappings` leaves on an import with a fixed account. */
  const FixedAccountLabels := ColumnLabels(None, Some("Fecha"), None, None, None, Some("Comentarios"))

  /** A row of the tests' exports, empty `Comentarios` column left out (the parser gives nil). */
  function TestRow(date: string, description: string, debit: string, credit: string, balance: string): CsvRow
  {
    map["Fecha" := date, DescriptionLabel := description, Amount.DebitLabel := debit,
        Amount.CreditLabel := credit, "Saldo Parcial" := balance]
  }

  lemma TestRowFields(date: string, description: string, debit: string, credit: string, balance: string)
    ensures var row := TestRow(date, description, debit, credit, balance);
      && Field(row, Some("Fecha")) == Some(date)
      && Field(row, Some(Amount.DebitLabel)) == Some(debit)
      && Field(row, Some(Amount.CreditLabel)) == Some(credit)
      && Field(row, Some("Comentarios")) == None
      && Field(row, None) == None
  {
    var row := TestRow(date, description, debit, credit, balance);
    assert row.Keys == {"Fecha", DescriptionLabel, Amount.DebitLabel, Amount.CreditLabel, "Saldo Parcial"};
    assert "Comentarios" != "Fecha" && "Comentarios" != DescriptionLabel && "Comentarios" != "Saldo Parcial";
    assert "Comentarios" != Amount.DebitLabel && "Comentarios" != Amount.CreditLabel;
    assert Amount.DebitLabel != "Saldo Parcial" && Amount.CreditLabel != "Saldo Parcial" && Amount.DebitLabel != Amount.CreditLabel;
  }

  /**
   * The debit row of the import's tests, staged with the tests' default
   * currency: the negative debit becomes a positive outflow, and the missing
   * currency, account and notes columns fall back.
   */
  lemma TestDebitRowStaged(description: string, sanitize: string -> string, defaultRowName: string)
    requires Amount.MatchesTestPairs(sanitize)
    ensures var r := BuildRow(TestRow("06/10/2025", description, "-13.900,00", "0,00", "20440,28"),
                              FixedAccountLabels, sanitize, "USD", defaultRowName);
      r.date == "06/10/2025" && r.amount == "13900.00" && r.currency == "USD" && r.account == "" && r.notes == ""
  {
    TestRowFields("06/10/2025", description, "-13.900,00", "0,00", "20440,28");
    Amount.TestAmounts(sanitize);
  }

  /** The credit row of the import's tests: the credit becomes a negative inflow. */
  lemma TestCreditRowStaged(description: string, sanitize: string -> string, defaultRowName: string)
    requires Amount.MatchesTestPairs(sanitize)
    ensures var r := BuildRow(TestRow("03/10/2025", description, "0,00", "287.756,65", "315840,28"),
                              FixedAccountLabels, sanitize, "USD", defaultRowName);
      r.date == "03/10/2025" && r.amount == "-287756.65" && r.currency == "USD"
  {
    TestRowFields("03/10/2025", description, "0,00", "287.756,65", "315840,28");
    Amount.TestAmounts(sanitize);
  }

  // ---------------------------------------------------------------------
  // Committing: `import!`
  // ---------------------------------------------------------------------

  datatype AccountRef = AccountRef(id: nat)
  datatype CategoryRef = CategoryRef(id: nat)
  datatype TagRef = TagRef(id: nat)

  /** `mappings.<kind>.mappable_for(label)` once the mappings exist: nil when unmapped. */
  datatype Mappings = Mappings(
    accountFor: string -> Option<AccountRef>,
    categoryFor: string -> Option<CategoryRef>,
    tagFor: string -> Option<TagRef>)

  /** `row.tags_list`, `row.date_iso` and `row.signed_amount` of the generic import row. */
  datatype RowReaders = RowReaders(
    tagsList: StagedRow -> seq<string>,
    dateIso: StagedRow -> string,
    signedAmount: StagedRow -> string)

  /** A ledger entry with its transaction's category and tags. */
  datatype Entry = Entry(
    account: AccountRef, date: string, amount: string, name: string, currency: string,
    notes: string, category: Option<CategoryRef>, tags: seq<TagRef>)

  /** The account of an entry: the fixed account if set, else the row's account mapping. */
  function EntryAccount(row: StagedRow, fixed: Option<AccountRef>, m: Mappings): Option<AccountRef>
  {
    if fixed.Some? then fixed else m.accountFor(row.account)
  }

  /** How many of `labels` (counted with repetition) have a tag mapping. */
  function MappedCount(labels: seq<string>, tagFor: string -> Option<TagRef>): nat
  {
    if labels == [] then 0 else (if tagFor(labels[0]).Some? then 1 else 0) + MappedCount(labels[1..], tagFor)
  }

  /** `tags_list.map { |tag| mappings.tags.mappable_for(tag) }.compact`. */
  function ResolveTags(labels: seq<string>, tagFor: string -> Option<TagRef>): (tags: seq<TagRef>)
    ensures |tags| == MappedCount(labels, tagFor) <= |labels|
  {
    if labels == [] then []
    else
      var rest := ResolveTags(labels[1..], tagFor);
      match tagFor(labels[0])
      case Some(t) => [t] + rest
      case None => rest
  }

  /**
   * A tag is resolved exactly when some label maps to it: every resolved tag
   * comes from a mapped label, and every mapped label's tag is resolved. So all
   * labels mapped keeps the count, and none mapped gives no tags.
   */
  lemma {:induction false} ResolveTagsMembers(labels: seq<string>, tagFor: string -> Option<TagRef>)
    ensures var tags := ResolveTags(labels, tagFor);
      && (forall t :: t in tags <==> exists l :: l in labels && tagFor(l) == Some(t))
      && ((forall l :: l in labels ==> tagFor(l).Some?) ==> |tags| == |labels|)
      && ((forall l :: l in labels ==> tagFor(l).None?) ==> tags == [])
  {
    if labels != [] {
      ResolveTagsMembers(labels[1..], tagFor);
      MappedCountBounds(labels, tagFor);
      var tags := ResolveTags(labels, tagFor);
      var rest := ResolveTags(labels[1..], tagFor);
      assert forall l :: l in labels <==> l == labels[0] || l in labels[1..];
      forall t
        ensures t in tags <==> exists l :: l in labels && tagFor(l) == Some(t)
      {
        if t in tags {
          if tagFor(labels[0]) == Some(t) {
            assert labels[0] in labels;
          } else {
            assert t in rest;
            var l :| l in labels[1..] && tagFor(l) == Some(t);
            assert l in labels;
          }
        }
        if exists l :: l in labels && tagFor(l) == Some(t) {
          var l :| l in labels && tagFor(l) == Some(t);
          if l != labels[0] {
            assert l in labels[1..];
            assert t in rest;
          }
        }
      }
    }
  }

  /** Every label mapped gives the full count, none mapped gives zero. */
  lemma {:induction false} MappedCountBounds(labels: seq<string>, tagFor: string -> Option<TagRef>)
    ensures (forall l :: l in labels ==> tagFor(l).Some?) ==> MappedCount(labels, tagFor) == |labels|
    ensures (forall l :: l in labels ==> tagFor(l).None?) ==> MappedCount(labels, tagFor) == 0
  {
    if labels != [] {
      MappedCountBounds(labels[1..], tagFor);
      assert forall l :: l in labels[1..] ==> l in labels;
      assert labels[0] in labels;
    }
  }

  /** One label gives its tag, or nothing when it is unmapped. */
  lemma ResolveTagsOne(l: string, tagFor: string -> Option<TagRef>)
    ensures ResolveTags([l], tagFor) == if tagFor(l).Some? then [tagFor(l).value] else []
  {
    assert [l][1..] == [];
  }

  /** Tags resolve label by label, in order: resolving a concatenation is resolving each part. */
  lemma {:induction false} ResolveTagsAppend(a: seq<string>, b: seq<string>, tagFor: string -> Option<TagRef>)
    ensures ResolveTags(a + b, tagFor) == ResolveTags(a, tagFor) + ResolveTags(b, tagFor)
  {
    if a == [] {
      assert a + b == b;
    } else {
      assert (a + b)[0] == a[0];
      assert (a + b)[1..] == a[1..] + b;
      ResolveTagsAppend(a[1..], b, tagFor);
      var ra, rb := ResolveTags(a[1..], tagFor), ResolveTags(b, tagFor);
      if tagFor(a[0]).Some? {
        var t := tagFor(a[0]).value;
        assert ResolveTags(a + b, tagFor) == [t] + (ra + rb);
        assert ResolveTags(a, tagFor) == [t] + ra;
        assert [t] + (ra + rb) == ([t] + ra) + rb;
      } else {
        assert ResolveTags(a + b, tagFor) == ra + rb;
        assert ResolveTags(a, tagFor) == ra;
      }
    }
  }

  function BuildEntry(row: StagedRow, account: AccountRef, m: Mappings, rd: RowReaders): Entry
  {
    Entry(account, rd.dateIso(row), rd.signedAmount(row), row.name, row.currency, row.notes,
          m.categoryFor(row.category), ResolveTags(rd.tagsList(row), m.tagFor))
  }

  predicate AllAccountsResolve(rows: seq<StagedRow>, fixed: Option<AccountRef>, m: Mappings)
  {
    forall i :: 0 <= i < |rows| ==> EntryAccount(rows[i], fixed, m).Some?
  }

  /** The entries `import!` builds, one per staged row, in order. */
  function Entries(rows: seq<StagedRow>, fixed: Option<AccountRef>, m: Mappings, rd: RowReaders): seq<Entry>
    requires AllAccountsResolve(rows, fixed, m)
  {
    seq(|rows|, i requires 0 <= i < |rows| && EntryAccount(rows[i], fixed, m).Some? =>
      BuildEntry(rows[i], EntryAccount(rows[i], fixed, m).value, m, rd))
  }

  /**
   * With a fixed account every row resolves and every entry goes to that
   * account; without one, the import goes through exactly when every row's
   * account label is mapped, and each entry goes to its row's mapping.
   */
  lemma EntryAccounts(rows: seq<StagedRow>, fixed: Option<AccountRef>, m: Mappings, rd: RowReaders)
    ensures fixed.Some? ==> AllAccountsResolve(rows, fixed, m)
    ensures fixed.None? ==>
      (AllAccountsResolve(rows, fixed, m) <==> forall i :: 0 <= i < |rows| ==> m.accountFor(rows[i].account).Some?)
    ensures AllAccountsResolve(rows, fixed, m) ==>
      var es := Entries(rows, fixed, m, rd);
      && |es| == |rows|
      && (forall i :: 0 <= i < |rows| ==>
            es[i].account == (if fixed.Some? then fixed.value else m.accountFor(rows[i].account).value)
            && es[i].name == rows[i].name && es[i].currency == rows[i].currency
            && es[i].notes == rows[i].notes && es[i].amount == rd.signedAmount(rows[i]))
  {
  }

  // ---------------------------------------------------------------------
  // Configuration-dependent lists
  // ---------------------------------------------------------------------

  datatype MappingStep = CategoryMapping | TagMapping | AccountMapping

  datatype ColumnKey = AccountKey | DateKey | NameKey

  /** The Banco de Galicia import: configuration, memoised CSV rows, staged rows, entries. */
  class BancoDeGaliciaImport {
    const parseCsv: CsvParser
    const sanitizeNumber: string -> string

    var account: Option<AccountRef>
    var rawFileStr: Option<string>

    var signageConvention: Option<string>
    var colSep: Option<string>
    var numberFormat: Option<string>
    var dateFormat: Option<string>
    var nameColLabel: Option<string>
    var amountColLabel: Option<string>
    /** `account_col_label`, `date_col_label`, `currency_col_label`, `category_col_label`, `tags_col_label`, `notes_col_label`. */
    var labels: ColumnLabels

    /** `@csv_rows`, and the raw text it was computed from. */
    var csvRowsMemo: Option<seq<CsvRow>>
    ghost var memoSource: string

    var rows: seq<StagedRow>
    var entries: seq<Entry>

    /** A memoised parse is the parse of the preamble-stripped text it came from. */
    ghost predicate Valid()
      reads this`csvRowsMemo, this`memoSource
    {
      csvRowsMemo.Some? ==> csvRowsMemo.value == parseCsv(Text.StripPreamble(memoSource), ColSep)
    }

    /** `raw_file_str.to_s`. */
    function RawText(): string
      reads this`rawFileStr
    {
      ToS(rawFileStr)
    }

    /** `create!(type: "BancoDeGaliciaImport", account: ...)`, running the `after_create` callback. */
    constructor (account: Option<AccountRef>, parseCsv: CsvParser, sanitizeNumber: string -> string)
      ensures Valid()
      ensures this.account == account && this.parseCsv == parseCsv && this.sanitizeNumber == sanitizeNumber
      ensures rawFileStr == None && csvRowsMemo == None && rows == [] && entries == []
      ensures signageConvention == Some("inflows_negative") && colSep == Some(";")
      ensures numberFormat == Some("1.234,56") && dateFormat == Some("%d/%m/%Y")
      ensures nameColLabel == Some("Movimiento") && amountColLabel == Some("amount")
      ensures labels == ColumnLabels(if account.None? then Some("account") else None, Some("Fecha"),
                                     None, None, None, Some("Comentarios"))
    {
      this.account := account;
      this.parseCsv := parseCsv;
      this.sanitizeNumber := sanitizeNumber;
      rawFileStr := None;
      signageConvention := None;
      colSep := None;
      numberFormat := None;
      dateFormat := None;
      nameColLabel := None;
      amountColLabel := None;
      labels := ColumnLabels(None, None, None, None, None, None);
      csvRowsMemo := None;
      memoSource := "";
      rows := [];
      entries := [];
      new;
      SetMappings();
    }

    /**
     * `set_mappings`: the format's fixed configuration. The date column is
     * `Fecha`, the notes column `Comentarios`, currency, category and tags have
     * no column, and the account column is `account` only without a fixed
     * account (otherwise it is left as it was).
     */
    method SetMappings()
      modifies this`signageConvention, this`colSep, this`numberFormat, this`dateFormat,
               this`nameColLabel, this`amountColLabel, this`labels
      ensures signageConvention == Some("inflows_negative") && colSep == Some(";")
      ensures numberFormat == Some("1.234,56") && dateFormat == Some("%d/%m/%Y")
      ensures nameColLabel == Some("Movimiento") && amountColLabel == Some("amount")
      ensures labels == ColumnLabels(if account.None? then Some("account") else old(labels.account), Some("Fecha"),
                                     None, None, None, Some("Comentarios"))
    {
      signageConvention := Some("inflows_negative");
      colSep := Some(";");
      numberFormat := Some("1.234,56");
      labels := labels.(date := Some("Fecha"));
      dateFormat := Some("%d/%m/%Y");
      nameColLabel := Some("Movimiento");
      amountColLabel := Some("amount");
      labels := labels.(currency := None);
      if account.None? {
        labels := labels.(account := Some("account"));
      }
      labels := labels.(category := None, tags := None, notes := Some("Comentarios"));
    }

    /** `update!(raw_file_str: ...)`; the memoised rows are kept as they are. */
    method UpdateRawFileStr(raw: string)
      modifies this`rawFileStr
      ensures rawFileStr == Some(raw)
    {
      rawFileStr := Some(raw);
    }

    /** `csv_rows`: parse the text after the preamble once, then reuse the result. */
    method CsvRows() returns (csv: seq<CsvRow>)
      requires Valid()
      modifies this`csvRowsMemo, this`memoSource
      ensures Valid()
      ensures csvRowsMemo == Some(csv)
      ensures old(csvRowsMemo).Some? ==> csv == old(csvRowsMemo).value
      ensures old(csvRowsMemo).None? ==> csv == parseCsv(Text.StripPreamble(RawText()), ColSep)
    {
      if csvRowsMemo.None? {
        var content := Text.StripPreamble(RawText());
        csvRowsMemo := Some(parseCsv(content, ColSep));
        memoSource := RawText();
      }
      csv := csvRowsMemo.value;
    }

    /**
     * `generate_rows_from_csv`: destroy every staged row, then insert one
     * staged row per CSV row, in order.
     */
    method GenerateRowsFromCsv(defaultCurrency: string, defaultRowName: string)
      requires Valid()
      modifies this`rows, this`csvRowsMemo, this`memoSource
      ensures Valid()
      ensures csvRowsMemo.Some?
      ensures old(csvRowsMemo).Some? ==> csvRowsMemo == old(csvRowsMemo)
      ensures old(csvRowsMemo).None? ==> csvRowsMemo == Some(parseCsv(Text.StripPreamble(RawText()), ColSep))
      ensures rows == StageAll(csvRowsMemo.value, labels, sanitizeNumber, defaultCurrency, defaultRowName)
    {
      rows := [];
      var csv := CsvRows();
      var mapped := StageAll(csv, labels, sanitizeNumber, defaultCurrency, defaultRowName);
      if |mapped| > 0 {
        rows := rows + mapped;
      }
    }

    /**
     * `import!`: one entry per staged row, in order. A row whose account does
     * not resolve raises inside the transaction, so no entry is kept.
     */
    method Import(m: Mappings, rd: RowReaders) returns (ok: bool)
      modifies this`entries
      ensures ok <==> AllAccountsResolve(rows, account, m)
      ensures ok ==> entries == old(entries) + Entries(rows, account, m, rd)
      ensures !ok ==> entries == old(entries)
    {
      var built: seq<Entry> := [];
      var i := 0;
      while i < |rows|
        invariant 0 <= i <= |rows|
        invariant forall j :: 0 <= j < i ==> EntryAccount(rows[j], account, m).Some?
        invariant |built| == i
        invariant forall j :: 0 <= j < i ==> built[j] == BuildEntry(rows[j], EntryAccount(rows[j], account, m).value, m, rd)
      {
        var acct := EntryAccount(rows[i], account, m);
        if acct.None? {
          return false;
        }
        built := built + [BuildEntry(rows[i], acct.value, m, rd)];
        i := i + 1;
      }
      entries := entries + built;
      ok := true;
    }

    /** `mapping_steps`: category and tag, then account only when no account is fixed. */
    function MappingSteps(): (steps: seq<MappingStep>)
      reads this`account
      ensures |steps| >= 2 && steps[..2] == [CategoryMapping, TagMapping]
      ensures AccountMapping in steps <==> account.None?
      ensures AccountMapping in steps ==> steps[|steps| - 1] == AccountMapping && |steps| == 3
      ensures AccountMapping !in steps ==> |steps| == 2
    {
      var base := [CategoryMapping, TagMapping];
      if account.None? then base + [AccountMapping] else base
    }

    /** `required_column_keys`. */
    function RequiredColumnKeys(): (keys: seq<ColumnKey>)
      ensures keys == [DateKey]
    {
      [DateKey]
    }

    /** `column_keys`: date and name, with account in front only when no account is fixed. */
    function ColumnKeys(): (keys: seq<ColumnKey>)
      reads this`account
      ensures |keys| >= 2 && keys[|keys| - 2..] == [DateKey, NameKey]
      ensures AccountKey in keys <==> account.None?
      ensures AccountKey in keys ==> keys[0] == AccountKey && |keys| == 3
      ensures AccountKey !in keys ==> |keys| == 2
    {
      var base := [DateKey, NameKey];
      if account.None? then [AccountKey] + base else base
    }
  }

  /** Every required column is one of the columns the import uses. */
  lemma RequiredKeysAreColumnKeys(imp: BancoDeGaliciaImport)
    ensures forall k :: k in imp.RequiredColumnKeys() ==> k in imp.ColumnKeys()
  {
    assert imp.ColumnKeys()[|imp.ColumnKeys()| - 2] == DateKey;
  }

  /**
   * The account appears in the mapping steps exactly when it appears in the
   * column keys, exactly when `import!` reads the row's account mapping.
   */
  lemma AccountStepAgreesWithColumns(imp: BancoDeGaliciaImport, row: StagedRow, m: Mappings)
    ensures (AccountMapping in imp.MappingSteps()) <==> (AccountKey in imp.ColumnKeys())
    ensures AccountMapping in imp.MappingSteps() ==> EntryAccount(row, imp.account, m) == m.accountFor(row.account)
    ensures AccountMapping !in imp.MappingSteps() ==> EntryAccount(row, imp.account, m) == imp.account
  {
  }

  /**
   * Staging twice without touching the import gives the same staged rows:
   * the second run reuses the memoised CSV rows and replaces the first run's.
   */
  method StageTwice(imp: BancoDeGaliciaImport, defaultCurrency: string, defaultRowName: string)
    returns (first: seq<StagedRow>)
    requires imp.Valid()
    modifies imp`rows, imp`csvRowsMemo, imp`memoSource
    ensures imp.rows == first
    ensures imp.csvRowsMemo.Some? && |first| == |imp.csvRowsMemo.value|
  {
    imp.GenerateRowsFromCsv(defaultCurrency, defaultRowName);
    first := imp.rows;
    imp.GenerateRowsFromCsv(defaultCurrency, defaultRowName);
  }

  /**
   * Create an import with a fixed account, load a raw export, stage it and
   * publish it: every staged row becomes one entry of that account.
   */
  method PublishToFixedAccount(acct: AccountRef, parse: CsvParser, sanitize: string -> string, raw: string,
                               defaultCurrency: string, defaultRowName: string, m: Mappings, rd: RowReaders)
    returns (ok: bool, staged: seq<StagedRow>, entries: seq<Entry>)
    ensures ok
    ensures staged == StageAll(parse(Text.StripPreamble(raw), ColSep), FixedAccountLabels,
                               sanitize, defaultCurrency, defaultRowName)
    ensures |entries| == |staged|
    ensures forall i :: 0 <= i < |entries| ==> entries[i].account == acct && entries[i].name == staged[i].name
  {
    var imp := new BancoDeGaliciaImport(Some(acct), parse, sanitize);
    var labels := FixedAccountLabels;
    assert imp.labels == labels;
    imp.UpdateRawFileStr(raw);
    assert imp.RawText() == raw;
    imp.GenerateRowsFromCsv(defaultCurrency, defaultRowName);
    staged := imp.rows;
    assert staged == StageAll(parse(Text.StripPreamble(raw), ColSep), labels, sanitize, defaultCurrency, defaultRowName);
    assert imp.entries == [] && imp.account == Some(acct);
    EntryAccounts(staged, Some(acct), m, rd);
    ok := imp.Import(m, rd);
    assert imp.rows == staged;
    entries := imp.entries;
    assert entries == Entries(staged, Some(acct), m, rd);
  }
}
