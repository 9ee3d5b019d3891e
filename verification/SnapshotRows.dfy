/** Rows of a snapshot: JSON encoding, Fernet framing, and the reader that undoes both. */
module SnapshotRows {
  import opened Common

  const MAX_ROW: nat := 12 * 1024 * 1024
  const NEWLINE: Byte := 10

  // ---------------------------------------------------------------- values

  /** A finite floating-point number: mantissa * 2^exponent in lowest terms. */
  datatype Dyadic = Dyadic(mantissa: int, exponent: int)
  type Float = d: Dyadic | d.mantissa % 2 == 1 || d == Dyadic(0, 0) witness Dyadic(0, 0)

  /** A JSON value. JNonFinite stands for NaN and the infinities, which Python prints but the reader refuses. */
  datatype Json =
    | JNull
    | JBool(flag: bool)
    | JInt(number: int)
    | JFloat(value: Float)
    | JNonFinite
    | JStr(text: string)
    | JArr(items: seq<Json>)
    | JObj(fields: map<string, Json>)

  predicate Finite(j: Json) {
    match j
    case JNonFinite => false
    case JArr(items) => forall x | x in items :: Finite(x)
    case JObj(fields) => forall k | k in fields :: Finite(fields[k])
    case _ => true
  }

  /** A database cell. Timestamps are instants; JSON columns hold documents. */
  datatype Cell =
    | Null
    | Bool(flag: bool)
    | Int(number: int)
    | Text(text: string)
    | Instant(at: int)
    | Doc(json: Json)

  type Row = map<string, Cell>

  /** An integer column holds the numbers from -bound up to bound - 1. */
  datatype Kind = KString(limit: nat) | KText | KInt(bound: int) | KBool | KTime | KJson

  /** `parent` names the table a foreign key points to. */
  datatype Column = Column(kind: Kind, nullable: bool, parent: Option<string>)

  /** `uniques` lists the column tuples with a uniqueness constraint. */
  datatype Table = Table(name: string, columns: map<string, Column>, uniques: seq<seq<string>>)

  /** The text of a row's primary key. */
  function RowId(row: Row): string {
    if "id" in row && row["id"].Text? then row["id"].text else ""
  }

  /** Every table is keyed by a required, bounded text column. */
  predicate Keyed(t: Table) {
    "id" in t.columns && t.columns["id"].kind.KString? && !t.columns["id"].nullable
  }

  /** What a SELECT can return for a column. A stored JSON null is read back as SQL NULL. */
  predicate Typed(col: Column, cell: Cell) {
    match cell
    case Null => true
    case Bool(_) => col.kind.KBool?
    case Int(_) => col.kind.KInt?
    case Text(_) => col.kind.KString? || col.kind.KText?
    case Instant(_) => col.kind.KTime?
    case Doc(j) => col.kind.KJson? && !j.JNull?
  }

  predicate RowTyped(t: Table, row: Row) {
    row.Keys == t.columns.Keys && forall k | k in row :: Typed(t.columns[k], row[k])
  }

  /** The extra conditions under which the reader gives a cell back. */
  predicate Readable(col: Column, cell: Cell) {
    && (cell.Null? ==> col.nullable)
    && (cell.Text? && col.kind.KString? && col.kind.limit > 0 ==> |cell.text| <= col.kind.limit)
    && (cell.Doc? ==> Finite(cell.json))
  }

  predicate RowReadable(t: Table, row: Row)
    requires RowTyped(t, row)
  {
    forall k | k in row :: Readable(t.columns[k], row[k])
  }

  // ---------------------------------------------------------------- abstract primitives

  /** The library functions the snapshot relies on; `seal` takes the random part of a token as an argument. */
  datatype Codec = Codec(
    render: Json -> Bytes,
    parse: Bytes -> Option<Json>,
    iso: int -> string,
    fromIso: string -> Option<int>,
    seal: (int, Bytes) -> Bytes,
    unseal: Bytes -> Option<Bytes>,
    digest: Bytes -> string,
    mac: Bytes -> string,
    isVerifier: Json -> bool)

  /** Length of a Fernet token for an n-byte message: 57 bytes of framing, PKCS7 padding, base64url. */
  function TokenLength(n: nat): nat {
    4 * ((57 + 16 * (n / 16 + 1) + 2) / 3)
  }

  /** The base64url alphabet of section 5 of RFC 4648, with its pad character. */
  predicate TokenByte(b: Byte) {
    65 <= b <= 90 || 97 <= b <= 122 || 48 <= b <= 57 || b == 45 || b == 95 || b == 61
  }

  predicate IsToken(s: Bytes) {
    forall i | 0 <= i < |s| :: TokenByte(s[i])
  }

  ghost predicate JsonLaws(c: Codec) {
    && (forall j :: c.parse(c.render(j)) == if Finite(j) then Some(j) else None)
    && (forall t :: c.fromIso(c.iso(t)) == Some(t))
  }

  ghost predicate SealLaws(c: Codec) {
    forall n, x :: c.unseal(c.seal(n, x)) == Some(x) && |c.seal(n, x)| == TokenLength(|x|) && IsToken(c.seal(n, x))
  }

  ghost predicate Lawful(c: Codec) {
    JsonLaws(c) && SealLaws(c)
  }

  // ---------------------------------------------------------------- row encoding

  function EncodeCell(c: Codec, cell: Cell): Json {
    match cell
    case Null => JNull
    case Bool(b) => JBool(b)
    case Int(n) => JInt(n)
    case Text(s) => JStr(s)
    case Instant(t) => JStr(c.iso(t))
    case Doc(j) => j
  }

  function EncodeRow(c: Codec, row: Row): Json {
    JObj(map k | k in row :: EncodeCell(c, row[k]))
  }

  function DecodeCell(c: Codec, col: Column, j: Json): Option<Cell> {
    if j.JNull? then
      if col.nullable then Some(Null) else None
    else match col.kind
      case KTime =>
        if j.JStr? then
          match c.fromIso(j.text)
          case Some(t) => Some(Instant(t))
          case None => None
        else None
      case KInt(_) => if j.JInt? then Some(Int(j.number)) else None
      case KBool => if j.JBool? then Some(Bool(j.flag)) else None
      case KText => if j.JStr? then Some(Text(j.text)) else None
      case KString(limit) => if j.JStr? && (limit > 0 ==> |j.text| <= limit) then Some(Text(j.text)) else None
      case KJson => Some(Doc(j))
  }

  function DecodeRow(c: Codec, t: Table, j: Json): Option<Row> {
    if j.JObj? && j.fields.Keys == t.columns.Keys
       && forall k | k in j.fields :: DecodeCell(c, t.columns[k], j.fields[k]).Some?
    then Some(map k | k in j.fields :: DecodeCell(c, t.columns[k], j.fields[k]).value)
    else None
  }

  lemma CellRoundTrip(c: Codec, col: Column, cell: Cell)
    requires JsonLaws(c) && Typed(col, cell)
    ensures Finite(EncodeCell(c, cell)) <==> (cell.Doc? ==> Finite(cell.json))
    ensures Finite(EncodeCell(c, cell)) ==>
      DecodeCell(c, col, EncodeCell(c, cell)) == if Readable(col, cell) then Some(cell) else None
  {
  }

  lemma RowFinite(c: Codec, t: Table, row: Row)
    requires JsonLaws(c) && RowTyped(t, row)
    ensures Finite(EncodeRow(c, row)) <==> forall k | k in row :: row[k].Doc? ==> Finite(row[k].json)
  {
    var j := EncodeRow(c, row);
    forall k | k in row
      ensures Finite(j.fields[k]) <==> (row[k].Doc? ==> Finite(row[k].json))
    {
      CellRoundTrip(c, t.columns[k], row[k]);
    }
    assert Finite(j) <==> forall k | k in j.fields :: Finite(j.fields[k]);
  }

  /** A row comes back from its JSON text unchanged exactly when it is readable; otherwise the reader refuses it. */
  lemma RowRoundTrip(c: Codec, t: Table, row: Row)
    requires JsonLaws(c) && RowTyped(t, row)
    ensures Finite(EncodeRow(c, row)) <==> forall k | k in row :: row[k].Doc? ==> Finite(row[k].json)
    ensures Finite(EncodeRow(c, row)) ==>
      DecodeRow(c, t, EncodeRow(c, row)) == if RowReadable(t, row) then Some(row) else None
    ensures (match c.parse(c.render(EncodeRow(c, row))) case None => None case Some(j) => DecodeRow(c, t, j))
         == if RowReadable(t, row) then Some(row) else None
  {
    var j := EncodeRow(c, row);
    RowFinite(c, t, row);
    forall k | k in row && Finite(j)
      ensures DecodeCell(c, t.columns[k], j.fields[k]) == if Readable(t.columns[k], row[k]) then Some(row[k]) else None
    {
      CellRoundTrip(c, t.columns[k], row[k]);
    }
    if Finite(j) {
      if RowReadable(t, row) {
        assert DecodeRow(c, t, j).Some?;
        assert DecodeRow(c, t, j).value == row;
      } else {
        var k :| k in row && !Readable(t.columns[k], row[k]);
        assert DecodeCell(c, t.columns[k], j.fields[k]).None?;
      }
    }
  }

  // ---------------------------------------------------------------- lines

  predicate Blank(b: Byte) {
    b == 32 || 9 <= b <= 13
  }

  /** Python's bytes.strip(). */
  function Strip(s: Bytes): Bytes
    decreases |s|
  {
    if s == [] then s
    else if Blank(s[0]) then Strip(s[1..])
    else if Blank(s[|s| - 1]) then Strip(s[..|s| - 1])
    else s
  }

  /** How many bytes readline(limit) consumes. */
  function LineLength(data: Bytes, limit: nat): (n: nat)
    ensures n <= |data| && n <= limit
    ensures data != [] && limit > 0 ==> n > 0
  {
    if data == [] || limit == 0 then 0
    else if data[0] == NEWLINE then 1
    else 1 + LineLength(data[1..], limit - 1)
  }

  /** One encrypted line of a data member. */
  function Line(c: Codec, nonce: int, row: Row): Bytes {
    c.seal(nonce, c.render(EncodeRow(c, row))) + [NEWLINE]
  }

  /** What the writer puts into a data member for these rows. */
  function Frame(c: Codec, nonce: int, rows: seq<Row>): Bytes
    decreases |rows|
  {
    if rows == [] then [] else Line(c, nonce, rows[0]) + Frame(c, nonce + 1, rows[1..])
  }

  /** One line of a data member: its framing is checked, then it is decrypted, parsed and typed. */
  function ReadLine(c: Codec, t: Table, line: Bytes): Option<Row> {
    if |line| == 0 || |line| > MAX_ROW * 2 || line[|line| - 1] != NEWLINE then None
    else match c.unseal(Strip(line))
      case None => None
      case Some(raw) =>
        match c.parse(raw)
        case None => None
        case Some(j) => DecodeRow(c, t, j)
  }

  function Prepend<T>(head: seq<T>, tail: Option<seq<T>>): Option<seq<T>> {
    match tail
    case Some(rest) => Some(head + rest)
    case None => None
  }

  /** All the rows of a data member, or None where the reader raises. */
  function ReadRows(c: Codec, t: Table, data: Bytes): Option<seq<Row>>
    decreases |data|
  {
    if data == [] then Some([])
    else
      var n := LineLength(data, MAX_ROW * 2 + 1);
      match ReadLine(c, t, data[..n])
      case None => None
      case Some(row) => Prepend([row], ReadRows(c, t, data[n..]))
  }

  lemma {:induction false} LineLengthOfToken(tok: Bytes, rest: Bytes, limit: nat)
    requires IsToken(tok) && |tok| + 1 <= limit
    ensures LineLength(tok + [NEWLINE] + rest, limit) == |tok| + 1
  {
    if tok == [] {
      assert ([NEWLINE] + rest)[0] == NEWLINE;
      assert tok + [NEWLINE] + rest == [NEWLINE] + rest;
    } else {
      assert (tok + [NEWLINE] + rest)[1..] == tok[1..] + [NEWLINE] + rest;
      assert TokenByte(tok[0]);
      LineLengthOfToken(tok[1..], rest, limit - 1);
    }
  }

  lemma StripToken(tok: Bytes)
    requires IsToken(tok) && tok != []
    ensures Strip(tok + [NEWLINE]) == tok
  {
    var s := tok + [NEWLINE];
    assert s[0] == tok[0] && TokenByte(tok[0]);
    assert s[..|s| - 1] == tok;
    assert TokenByte(tok[|tok| - 1]);
  }

  /** The token of a row within the limit is always far below what readline accepts. */
  lemma TokenFits(n: nat)
    requires n <= MAX_ROW
    ensures 0 < TokenLength(n) && TokenLength(n) + 1 < MAX_ROW * 2
  {
  }

  ghost predicate WithinRowLimit(c: Codec, row: Row) {
    |c.render(EncodeRow(c, row))| <= MAX_ROW
  }

  lemma LineRoundTrip(c: Codec, t: Table, nonce: int, row: Row)
    requires Lawful(c) && RowTyped(t, row) && WithinRowLimit(c, row)
    ensures ReadLine(c, t, Line(c, nonce, row)) == if RowReadable(t, row) then Some(row) else None
  {
    var raw := c.render(EncodeRow(c, row));
    TokenFits(|raw|);
    assert c.unseal(c.seal(nonce, raw)) == Some(raw) && |c.seal(nonce, raw)| == TokenLength(|raw|);
    StripToken(c.seal(nonce, raw));
    RowRoundTrip(c, t, row);
  }

  lemma ReadRowsStep(c: Codec, t: Table, nonce: int, row: Row, rest: Bytes)
    requires Lawful(c) && RowTyped(t, row) && WithinRowLimit(c, row)
    ensures ReadRows(c, t, Line(c, nonce, row) + rest)
         == if RowReadable(t, row) then Prepend([row], ReadRows(c, t, rest)) else None
  {
    var raw := c.render(EncodeRow(c, row));
    var tok := c.seal(nonce, raw);
    var data := tok + [NEWLINE] + rest;
    TokenFits(|raw|);
    assert c.unseal(tok) == Some(raw) && |tok| == TokenLength(|raw|) && IsToken(tok);
    LineLengthOfToken(tok, rest, MAX_ROW * 2 + 1);
    LineRoundTrip(c, t, nonce, row);
    var n := LineLength(data, MAX_ROW * 2 + 1);
    assert data[..n] == Line(c, nonce, row) && data[n..] == rest;
  }

  /** The reader inverts the writer on every table whose rows are readable, and refuses every other one. */
  lemma {:induction false} FrameRoundTrip(c: Codec, t: Table, nonce: int, rows: seq<Row>)
    requires Lawful(c)
    requires forall r | r in rows :: RowTyped(t, r) && WithinRowLimit(c, r)
    ensures ReadRows(c, t, Frame(c, nonce, rows))
         == if forall r | r in rows :: RowReadable(t, r) then Some(rows) else None
    decreases |rows|
  {
    if rows != [] {
      assert rows[0] in rows;
      assert forall r :: r in rows <==> r == rows[0] || r in rows[1..];
      assert rows == [rows[0]] + rows[1..];
      ReadRowsStep(c, t, nonce, rows[0], Frame(c, nonce + 1, rows[1..]));
      FrameRoundTrip(c, t, nonce + 1, rows[1..]);
    }
  }

  lemma {:induction false} FrameAppend(c: Codec, nonce: int, rows: seq<Row>, last: Row)
    ensures Frame(c, nonce, rows + [last]) == Frame(c, nonce, rows) + Line(c, nonce + |rows|, last)
    decreases |rows|
  {
    if rows == [] {
      assert ([] + [last])[1..] == [];
    } else {
      assert (rows + [last])[1..] == rows[1..] + [last];
      FrameAppend(c, nonce + 1, rows[1..], last);
    }
  }
}
