/**
 * The button board of ble/button-grid.js: a grid of up to 5 × 5 buttons, each sending its value
 * over BLE when pressed. The model covers the layout arithmetic of the custom preset (creating,
 * normalising, growing and shrinking it), the button editor's save, the edit-mode snapshot and
 * its rollback, and the hex and rgb part of the colour conversion for the colour picker.
 */
module ButtonGrid {
  import opened Wrappers
  import opened Seqs
  import opened Text

  const MinRows: int := 1
  const MaxRows: int := 5
  const MinCols: int := 1
  const MaxCols: int := 5
  /** The editor keeps at most this many characters of a label. */
  const LabelLimit: nat := 6
  const DefaultColor: string := "#e0e0e0"

  const Numpad: string := "numpad"
  const Gamepad: string := "gamepad"
  const Custom: string := "custom"

  /** A button's configuration; a field the source leaves undefined is the empty string here. */
  datatype ButtonConfig = ButtonConfig(labelText: string, value: string, icon: string, bgColor: string, row: int, col: int)
  datatype Preset = Preset(rows: int, cols: int, buttons: seq<ButtonConfig>)
  datatype Size = Size(rows: int, cols: int)
  /** The grid cell of the button being edited (its `data-row` and `data-col`). */
  datatype Cell = Cell(row: nat, col: nat)

  predicate InRange(rows: int, cols: int) {
    MinRows <= rows <= MaxRows && MinCols <= cols <= MaxCols
  }

  predicate WellSized(p: Preset) {
    InRange(p.rows, p.cols)
  }

  // ---------------------------------------------------------------------------------
  // Row-major arithmetic

  lemma {:induction false} MulAtLeast(a: int, b: nat)
    requires a >= 1
    ensures a * b >= b
  {
    if a > 1 {
      MulAtLeast(a - 1, b);
      assert a * b == (a - 1) * b + b;
    }
  }

  /** Index `row·cols + col` of a cell inside a `cols`-wide grid decodes back to that cell. */
  lemma {:induction false} RowMajorIndex(row: nat, col: nat, cols: nat)
    requires col < cols
    ensures (row * cols + col) / cols == row && (row * cols + col) % cols == col
  {
    var i := row * cols + col;
    var q, r := i / cols, i % cols;
    assert i == q * cols + r;
    assert (q - row) * cols == col - r;
    if q > row {
      MulAtLeast(q - row, cols);
    } else if q < row {
      MulAtLeast(row - q, cols);
    }
  }

  /** An index below `rows·cols` lies in one of the first `rows` rows. */
  lemma {:induction false} InGrid(i: nat, rows: nat, cols: nat)
    requires 0 < cols && i < rows * cols
    ensures i / cols < rows
  {
  }

  /** Every button `i` of `bs` sits at row `⌊i/cols⌋`, column `i mod cols`. */
  predicate RowMajor(bs: seq<ButtonConfig>, cols: int)
    requires cols > 0
  {
    forall i :: 0 <= i < |bs| ==> bs[i].row == i / cols && bs[i].col == i % cols
  }

  // ---------------------------------------------------------------------------------
  // createCustomGrid

  /** The label and value of the generated button numbered `n` (counting from 1). */
  function DefaultLabel(n: nat): string {
    "버튼 " + NatToString(n)
  }

  function DefaultValue(n: nat): string {
    "BUTTON_" + NatToString(n)
  }

  /** The generated button at row-major index `i`, with background `color`. */
  function DefaultButton(i: nat, cols: int, color: string): ButtonConfig
    requires cols > 0
  {
    ButtonConfig(DefaultLabel(i + 1), DefaultValue(i + 1), "", color, i / cols, i % cols)
  }

  /**
   * The first `n` generated buttons of a `cols`-wide grid; `pastel(i)` is the random pastel
   * colour drawn for button `i`.
   */
  function DefaultButtons(n: nat, cols: int, pastel: nat -> string): (r: seq<ButtonConfig>)
    requires cols > 0
    ensures |r| == n
  {
    if n == 0 then [] else DefaultButtons(n - 1, cols, pastel) + [DefaultButton(n - 1, cols, pastel(n - 1))]
  }

  lemma {:induction false} DefaultButtonsAt(n: nat, cols: int, pastel: nat -> string, i: nat)
    requires cols > 0 && i < n
    ensures DefaultButtons(n, cols, pastel)[i] == DefaultButton(i, cols, pastel(i))
  {
    if i < n - 1 {
      DefaultButtonsAt(n - 1, cols, pastel, i);
    }
  }

  /**
   * A generated `rows × cols` grid has `rows·cols` buttons in row-major order, every one inside
   * the grid, button `i` labelled `버튼 i+1` and sending `BUTTON_i+1`.
   */
  lemma {:induction false} DefaultGridLayout(rows: int, cols: int, pastel: nat -> string)
    requires InRange(rows, cols)
    ensures var bs := DefaultButtons(rows * cols, cols, pastel);
      |bs| == rows * cols && RowMajor(bs, cols)
      && (forall i :: 0 <= i < |bs| ==> bs[i].row < rows && bs[i].col < cols)
      && (forall i :: 0 <= i < |bs| ==>
            bs[i].labelText == DefaultLabel(i + 1) && bs[i].value == DefaultValue(i + 1) && bs[i].icon == "")
  {
    var bs := DefaultButtons(rows * cols, cols, pastel);
    forall i | 0 <= i < |bs|
      ensures bs[i] == DefaultButton(i, cols, pastel(i)) && i / cols < rows
    {
      DefaultButtonsAt(rows * cols, cols, pastel, i);
      InGrid(i, rows, cols);
    }
  }

  /** Different buttons of a generated grid send different values. */
  lemma {:induction false} DefaultValuesDistinct(n: nat, cols: int, pastel: nat -> string, i: nat, j: nat)
    requires cols > 0 && i < n && j < n
    requires DefaultButtons(n, cols, pastel)[i].value == DefaultButtons(n, cols, pastel)[j].value
    ensures i == j
  {
    DefaultButtonsAt(n, cols, pastel, i);
    DefaultButtonsAt(n, cols, pastel, j);
    var a, b := DefaultValue(i + 1), DefaultValue(j + 1);
    assert a[7..] == NatToString(i + 1);
    assert b[7..] == NatToString(j + 1);
    NatToStringInjective(i + 1, j + 1);
  }

  /**
   * The size check of `createCustomGrid` as written: each comparison with NaN (what `parseInt`
   * gives for an empty or non-numeric field) is false, so such a size is not rejected.
   */
  predicate RejectedAsWritten(rows: Option<int>, cols: Option<int>) {
    (rows.Some? && (rows.value < MinRows || rows.value > MaxRows))
    || (cols.Some? && (cols.value < MinCols || cols.value > MaxCols))
  }

  /** The check as intended: both sizes are numbers in 1..5. */
  predicate SizeAccepted(rows: Option<int>, cols: Option<int>) {
    rows.Some? && cols.Some? && InRange(rows.value, cols.value)
  }

  /** An empty rows field passes the written check though it names no size at all. */
  lemma {:induction false} NaNSizeNotRejected(cols: int)
    requires MinCols <= cols <= MaxCols
    ensures !RejectedAsWritten(None, Some(cols)) && !SizeAccepted(None, Some(cols))
  {
  }

  /** On numbers the intended check and the written one agree. */
  lemma {:induction false} SizeCheckOnNumbers(rows: int, cols: int)
    ensures SizeAccepted(Some(rows), Some(cols)) <==> !RejectedAsWritten(Some(rows), Some(cols))
  {
  }

  // ---------------------------------------------------------------------------------
  // ensureCustomButtons and normalizeCustomButtons

  /** `buttons.length = expected` when the list is longer. */
  function Fit(bs: seq<ButtonConfig>, n: nat): (r: seq<ButtonConfig>)
    ensures |r| == if |bs| > n then n else |bs|
    ensures r == bs[..|r|]
  {
    if |bs| > n then bs[..n] else bs
  }

  /** Button `b` moved to row-major index `i`, its empty label, value and colour filled in. */
  function NormalizeButton(b: ButtonConfig, i: nat, cols: int, color: string): ButtonConfig
    requires cols > 0
  {
    ButtonConfig(if b.labelText != "" then b.labelText else DefaultLabel(i + 1),
                 if b.value != "" then b.value else DefaultValue(i + 1),
                 b.icon,
                 if b.bgColor != "" then b.bgColor else color,
                 i / cols, i % cols)
  }

  function Normalized(bs: seq<ButtonConfig>, cols: int, pastel: nat -> string): (r: seq<ButtonConfig>)
    requires cols > 0
    ensures |r| == |bs|
  {
    if bs == [] then []
    else Normalized(bs[..|bs| - 1], cols, pastel) + [NormalizeButton(bs[|bs| - 1], |bs| - 1, cols, pastel(|bs| - 1))]
  }

  lemma {:induction false} NormalizedSnoc(bs: seq<ButtonConfig>, cols: int, pastel: nat -> string, i: nat)
    requires cols > 0 && i < |bs|
    ensures Normalized(bs[..i + 1], cols, pastel)
            == Normalized(bs[..i], cols, pastel) + [NormalizeButton(bs[i], i, cols, pastel(i))]
  {
    var p := bs[..i + 1];
    TakeTake(bs, i + 1, i);
    assert p[..|p| - 1] == bs[..i];
    assert p[|p| - 1] == bs[i];
  }

  lemma {:induction false} NormalizedAt(bs: seq<ButtonConfig>, cols: int, pastel: nat -> string, i: nat)
    requires cols > 0 && i < |bs|
    ensures Normalized(bs, cols, pastel)[i] == NormalizeButton(bs[i], i, cols, pastel(i))
  {
    if i < |bs| - 1 {
      var front := bs[..|bs| - 1];
      NormalizedAt(front, cols, pastel, i);
      assert front[i] == bs[i];
    }
  }

  /**
   * Normalising keeps the order and the number of buttons, puts them in row-major order, keeps
   * every non-empty label and value and every icon, and gives each empty label or value the
   * default of its new place.
   */
  lemma {:induction false} NormalizedFacts(bs: seq<ButtonConfig>, cols: int, pastel: nat -> string)
    requires cols > 0
    ensures var r := Normalized(bs, cols, pastel);
      |r| == |bs| && RowMajor(r, cols)
      && (forall i :: 0 <= i < |bs| ==>
            (r[i].icon == bs[i].icon
             && r[i].labelText == (if bs[i].labelText != "" then bs[i].labelText else DefaultLabel(i + 1))
             && r[i].value == (if bs[i].value != "" then bs[i].value else DefaultValue(i + 1))))
  {
    var r := Normalized(bs, cols, pastel);
    forall i | 0 <= i < |bs|
      ensures r[i] == NormalizeButton(bs[i], i, cols, pastel(i))
    {
      NormalizedAt(bs, cols, pastel, i);
    }
  }

  /** Normalising a normalised list changes nothing. */
  lemma {:induction false} NormalizedIdempotent(bs: seq<ButtonConfig>, cols: int, pastel: nat -> string)
    requires cols > 0
    ensures Normalized(Normalized(bs, cols, pastel), cols, pastel) == Normalized(bs, cols, pastel)
  {
    var r := Normalized(bs, cols, pastel);
    var rr := Normalized(r, cols, pastel);
    forall i | 0 <= i < |bs|
      ensures rr[i] == r[i]
    {
      NormalizedAt(bs, cols, pastel, i);
      NormalizedAt(r, cols, pastel, i);
    }
  }

  // ---------------------------------------------------------------------------------
  // addNewButton

  /**
   * The size `addNewButton` leaves the grid for a list of `n` buttons: unchanged while a cell is
   * free, else one more row, else one more column, and `None` for a full 5 × 5 grid.
   */
  function Grow(size: Size, n: nat): (r: Option<Size>)
    ensures r.None? <==> n >= size.rows * size.cols && size.rows >= MaxRows && size.cols >= MaxCols
    ensures r.Some? ==> r.value.rows >= size.rows && r.value.cols >= size.cols
  {
    if n < size.rows * size.cols then Some(size)
    else if size.rows < MaxRows then Some(Size(size.rows + 1, size.cols))
    else if size.cols < MaxCols then Some(Size(size.rows, size.cols + 1))
    else None
  }

  /**
   * When the buttons fit the grid, the grown grid is at most one row or one column larger, still
   * within 5 × 5, and the appended button's cell lies inside it.
   */
  lemma {:induction false} GrowMakesRoom(size: Size, n: nat)
    requires InRange(size.rows, size.cols) && n <= size.rows * size.cols && Grow(size, n).Some?
    ensures var g := Grow(size, n).value;
      InRange(g.rows, g.cols) && n < g.rows * g.cols && n / g.cols < g.rows
      && (g == size || g == Size(size.rows + 1, size.cols) || g == Size(size.rows, size.cols + 1))
  {
    var g := Grow(size, n).value;
    if g.rows == size.rows + 1 {
      assert g.rows * g.cols == size.rows * size.cols + size.cols;
    } else if g.cols == size.cols + 1 {
      assert g.rows * g.cols == size.rows * size.cols + size.rows;
    }
    InGrid(n, g.rows, g.cols);
  }

  // ---------------------------------------------------------------------------------
  // deleteCurrentButton and saveButtonConfig

  predicate At(b: ButtonConfig, cell: Cell) {
    b.row == cell.row && b.col == cell.col
  }

  /** `buttons.find(b => b.row === row && b.col === col)`, as the index of the first such button. */
  function FindCell(bs: seq<ButtonConfig>, cell: Cell): (r: Option<nat>)
    ensures r.Some? ==> r.value < |bs| && At(bs[r.value], cell)
    ensures r.Some? ==> forall j :: 0 <= j < r.value ==> !At(bs[j], cell)
    ensures r.None? ==> forall j :: 0 <= j < |bs| ==> !At(bs[j], cell)
  {
    if bs == [] then None
    else if At(bs[0], cell) then Some(0)
    else match FindCell(bs[1..], cell)
      case None => None
      case Some(i) => Some(i + 1)
  }

  /** The first button at `cell` is the one `FindCell` finds. */
  lemma {:induction false} FindCellFirst(bs: seq<ButtonConfig>, cell: Cell, i: nat)
    requires i < |bs| && At(bs[i], cell)
    requires forall j :: 0 <= j < i ==> !At(bs[j], cell)
    ensures FindCell(bs, cell) == Some(i)
  {
    if i > 0 {
      assert !At(bs[0], cell);
      FindCellFirst(bs[1..], cell, i - 1);
    }
  }

  /** In a row-major list the button shown in cell (row, col) is the one at `row·cols + col`. */
  lemma {:induction false} FindCellRowMajor(bs: seq<ButtonConfig>, cols: int, cell: Cell)
    requires cols > 0 && RowMajor(bs, cols) && cell.col < cols
    ensures cell.row * cols + cell.col < |bs| ==> FindCell(bs, cell) == Some(cell.row * cols + cell.col)
    ensures cell.row * cols + cell.col >= |bs| ==> FindCell(bs, cell).None?
  {
    var k := cell.row * cols + cell.col;
    RowMajorIndex(cell.row, cell.col, cols);
    forall j | 0 <= j < |bs| && j != k
      ensures !At(bs[j], cell)
    {
      assert j == cols * (j / cols) + j % cols;
    }
    if k < |bs| {
      assert At(bs[k], cell);
    }
  }

  /** `splice(idx, 1)`: drops the button at `idx`, none when `idx` is past the end. */
  function RemoveAt(bs: seq<ButtonConfig>, idx: nat): (r: seq<ButtonConfig>)
    ensures idx < |bs| ==> |r| == |bs| - 1 && r[..idx] == bs[..idx] && r[idx..] == bs[idx + 1..]
    ensures idx >= |bs| ==> r == bs
  {
    if idx < |bs| then bs[..idx] + bs[idx + 1..] else bs
  }

  /** The label the editor stores: the input trimmed and cut to six characters. */
  function EditLabel(input: string): (r: string)
    ensures |r| == if |Trim(input)| <= LabelLimit then |Trim(input)| else LabelLimit
    ensures |r| <= LabelLimit && r == Trim(input)[..|r|]
  {
    var t := Trim(input);
    if |t| <= LabelLimit then t else t[..LabelLimit]
  }

  /** What the editor form holds: label, value, icon and colour inputs. */
  datatype Form = Form(labelText: string, value: string, icon: string, bgColor: string)

  /** The configuration `saveButtonConfig` writes for `cell` from the form. */
  function EditedConfig(form: Form, cell: Cell): ButtonConfig {
    ButtonConfig(EditLabel(form.labelText), Trim(form.value), Trim(form.icon), form.bgColor, cell.row, cell.col)
  }

  /** The list after saving `cfg` at `cell`: it replaces the first button there, or is appended. */
  function SaveConfig(bs: seq<ButtonConfig>, cell: Cell, cfg: ButtonConfig): (r: seq<ButtonConfig>)
  {
    match FindCell(bs, cell)
    case Some(i) => bs[i := cfg]
    case None => bs + [cfg]
  }

  /**
   * After a save the cell shows the saved configuration, every other button is as it was, and
   * the list grows by one exactly when no button was at that cell.
   */
  lemma {:induction false} SaveConfigShows(bs: seq<ButtonConfig>, cell: Cell, form: Form)
    ensures var cfg := EditedConfig(form, cell);
      var r := SaveConfig(bs, cell, cfg);
      (exists i :: FindCell(r, cell) == Some(i) && r[i] == cfg)
      && |r| == (if FindCell(bs, cell).Some? then |bs| else |bs| + 1)
      && (forall j :: 0 <= j < |bs| && Some(j) != FindCell(bs, cell) ==> r[j] == bs[j])
  {
    var cfg := EditedConfig(form, cell);
    var r := SaveConfig(bs, cell, cfg);
    match FindCell(bs, cell)
    case Some(i) =>
      forall j | 0 <= j < i
        ensures !At(r[j], cell)
      {
        assert r[j] == bs[j];
      }
      FindCellFirst(r, cell, i);
    case None =>
      forall j | 0 <= j < |bs|
        ensures !At(r[j], cell)
      {
        assert r[j] == bs[j];
      }
      FindCellFirst(r, cell, |bs|);
  }

  // ---------------------------------------------------------------------------------
  // toHexColor

  predicate IsHexDigit(c: char) {
    '0' <= c <= '9' || 'a' <= c <= 'f'
  }

  predicate AllHex(s: string) {
    forall i :: 0 <= i < |s| ==> IsHexDigit(s[i])
  }

  /** `/^#([0-9a-f]{6})$/`: the form `<input type="color">` takes. */
  predicate IsFullHex(s: string) {
    |s| == 7 && s[0] == '#' && AllHex(s[1..])
  }

  /** `/^#([0-9a-f]{3})$/`. */
  predicate IsShortHex(s: string) {
    |s| == 4 && s[0] == '#' && AllHex(s[1..])
  }

  function HexDigit(d: nat): (c: char)
    requires d < 16
    ensures IsHexDigit(c)
  {
    if d < 10 then ('0' as int + d) as char else ('a' as int + d - 10) as char
  }

  function HexDigitValue(c: char): nat {
    if '0' <= c <= '9' then c as int - '0' as int
    else if 'a' <= c <= 'f' then c as int - 'a' as int + 10
    else 0
  }

  /** `n.toString(16).padStart(2, '0')` for a byte. */
  function Hex2(n: int): (h: string)
    requires 0 <= n < 256
    ensures |h| == 2 && AllHex(h)
    ensures 16 * HexDigitValue(h[0]) + HexDigitValue(h[1]) == n
  {
    [HexDigit(n / 16), HexDigit(n % 16)]
  }

  /** `m.split('').map(c => c + c).join('')`. */
  function Doubled(m: string): (r: string)
    ensures |r| == 2 * |m|
  {
    if m == [] then [] else [m[0], m[0]] + Doubled(m[1..])
  }

  lemma {:induction false} DoubledAt(m: string, i: nat)
    requires i < |m|
    ensures Doubled(m)[2 * i] == m[i] && Doubled(m)[2 * i + 1] == m[i]
  {
    if i > 0 {
      DoubledAt(m[1..], i - 1);
    }
  }

  /** `Math.round`: the nearest integer, halves rounded up. */
  function Round(x: real): (n: int)
    ensures n as real <= x + 0.5 < n as real + 1.0
  {
    (x + 0.5).Floor
  }

  /** `Math.max(0, Math.min(255, n))`. */
  function Clamp(n: int): (r: int)
    ensures 0 <= r <= 255
    ensures 0 <= n <= 255 ==> r == n
    ensures n < 0 ==> r == 0
    ensures n > 255 ==> r == 255
  {
    if n < 0 then 0 else if n > 255 then 255 else n
  }

  /** One channel of the rgb branch; NaN (`None`) survives the clamp and prints as "NaN". */
  function ChannelHex(v: Option<real>): string {
    match v
    case None => "NaN"
    case Some(x) => Hex2(Clamp(Round(x)))
  }

  /** The length of the match of `/rgba?\(|\)/` at the head of `s`, 0 for none. */
  function MatchLen(s: string): (k: nat)
    ensures k <= |s|
  {
    if |s| >= 5 && s[0] == 'r' && s[1] == 'g' && s[2] == 'b' && s[3] == 'a' && s[4] == '(' then 5
    else if |s| >= 4 && s[0] == 'r' && s[1] == 'g' && s[2] == 'b' && s[3] == '(' then 4
    else if |s| >= 1 && s[0] == ')' then 1
    else 0
  }

  /** `s.replace(/rgba?\(|\)/g, '')`. */
  function StripRgb(s: string): string
    decreases |s|
  {
    if s == [] then []
    else if MatchLen(s) > 0 then StripRgb(s[MatchLen(s)..])
    else [s[0]] + StripRgb(s[1..])
  }

  /** `s.split(',')`. */
  function SplitComma(s: string): (r: seq<string>)
    ensures |r| >= 1
  {
    if s == [] then [""]
    else if s[0] == ',' then [""] + SplitComma(s[1..])
    else
      var t := SplitComma(s[1..]);
      [[s[0]] + t[0]] + t[1..]
  }

  /** `parseFloat(v.trim())` of part `k`; a part that is not there is NaN. */
  function Channel(parts: seq<string>, k: nat): Option<real> {
    if k < |parts| then ParseFloat(Trim(parts[k])) else None
  }

  /** The first three numbers of an rgb/rgba colour. */
  function Channels(s: string): (c: seq<Option<real>>)
    ensures |c| == 3
  {
    var parts := SplitComma(StripRgb(s));
    [Channel(parts, 0), Channel(parts, 1), Channel(parts, 2)]
  }

  /** The form of `colorString` the conversion inspects: trimmed and lower-cased. */
  function Canonical(color: string): string {
    Lower(Trim(color))
  }

  /** The rgb branch: `#` and the three channels. */
  function RgbHex(c: seq<Option<real>>): string
    requires |c| == 3
  {
    "#" + ChannelHex(c[0]) + ChannelHex(c[1]) + ChannelHex(c[2])
  }

  /** The conversion of a non-empty colour once trimmed and lower-cased. */
  function HexOf(s: string): (r: Option<string>)
    ensures r.None? <==> StartsWith(s, "hsl")
  {
    if IsFullHex(s) then Some(s)
    else if IsShortHex(s) then Some("#" + Doubled(s[1..]))
    else if StartsWith(s, "rgb") then Some(RgbHex(Channels(s)))
    else if StartsWith(s, "hsl") then None
    else Some(DefaultColor)
  }

  /**
   * `toHexColor(colorString)`: `#rrggbb` for the colour picker. `None` stands for the hsl branch,
   * whose floating-point conversion is not modelled.
   */
  function ToHexColor(color: string): (r: Option<string>)
    ensures r.None? <==> color != "" && StartsWith(Canonical(color), "hsl")
  {
    if color == "" then Some(DefaultColor) else HexOf(Canonical(color))
  }

  /** An rgb colour with a channel that is not a number. */
  predicate NaNChannel(color: string) {
    var s := Canonical(color);
    color != "" && StartsWith(s, "rgb") && (Channels(s)[0].None? || Channels(s)[1].None? || Channels(s)[2].None?)
  }

  lemma {:induction false} ChannelIsHex(v: Option<real>)
    requires v.Some?
    ensures |ChannelHex(v)| == 2 && AllHex(ChannelHex(v))
  {
  }

  /** A three-digit hex doubled is six hex digits, each digit twice. */
  lemma {:induction false} DoubledHex(m: string)
    requires |m| == 3 && AllHex(m)
    ensures |Doubled(m)| == 6 && AllHex(Doubled(m))
    ensures forall k :: 0 <= k < 3 ==> Doubled(m)[2 * k] == m[k] && Doubled(m)[2 * k + 1] == m[k]
  {
    var d := Doubled(m);
    forall k | 0 <= k < 3
      ensures d[2 * k] == m[k] && d[2 * k + 1] == m[k]
    {
      DoubledAt(m, k);
    }
    forall i | 0 <= i < 6
      ensures IsHexDigit(d[i])
    {
      DoubledAt(m, i / 2);
    }
  }

  lemma {:induction false} ChannelsHex(a: Option<real>, b: Option<real>, c: Option<real>)
    requires a.Some? && b.Some? && c.Some?
    ensures var h := ChannelHex(a) + ChannelHex(b) + ChannelHex(c);
      |h| == 6 && AllHex(h)
  {
    var x, y, z := ChannelHex(a), ChannelHex(b), ChannelHex(c);
    var h := x + y + z;
    forall i | 0 <= i < 6
      ensures IsHexDigit(h[i])
    {
      if i < 2 {
        assert h[i] == x[i];
      } else if i < 4 {
        assert h[i] == y[i - 2];
      } else {
        assert h[i] == z[i - 4];
      }
    }
  }

  lemma {:induction false} RgbHexIsHex(c: seq<Option<real>>)
    requires |c| == 3 && c[0].Some? && c[1].Some? && c[2].Some?
    ensures IsFullHex(RgbHex(c))
  {
    var r := RgbHex(c);
    ChannelsHex(c[0], c[1], c[2]);
    assert r[1..] == ChannelHex(c[0]) + ChannelHex(c[1]) + ChannelHex(c[2]);
  }

  /** A short hex `#abc` converts to `#aabbcc`. */
  lemma {:induction false} ShortHexExpands(s: string)
    requires IsShortHex(s)
    ensures var r := HexOf(s).value;
      IsFullHex(r) && forall k :: 0 <= k < 3 ==> r[2 * k + 1] == s[k + 1] && r[2 * k + 2] == s[k + 1]
  {
    var m := s[1..];
    DoubledHex(m);
    var r := "#" + Doubled(m);
    assert r[1..] == Doubled(m);
    assert HexOf(s) == Some(r);
  }

  /**
   * Every result outside the hsl branch is a lower-case `#rrggbb`, unless an rgb channel is not
   * a number.
   */
  lemma {:induction false} ToHexColorIsHex(color: string)
    requires ToHexColor(color).Some? && !NaNChannel(color)
    ensures IsFullHex(ToHexColor(color).value)
  {
    if color != "" {
      var s := Canonical(color);
      if !IsFullHex(s) && IsShortHex(s) {
        ShortHexExpands(s);
      } else if !IsFullHex(s) && StartsWith(s, "rgb") {
        RgbHexIsHex(Channels(s));
      }
    }
  }

  lemma {:induction false} LowerHexNoOp(s: string)
    requires forall i :: 0 <= i < |s| ==> IsHexDigit(s[i]) || s[i] == '#'
    ensures Lower(s) == s
  {
    if s != [] {
      LowerHexNoOp(s[1..]);
    }
  }

  /** A `#rrggbb` colour converts to itself, so converting a converted colour changes nothing. */
  lemma {:induction false} ToHexColorFixedPoint(h: string)
    requires IsFullHex(h)
    ensures ToHexColor(h) == Some(h)
  {
    TrimNoOp(h);
    LowerHexNoOp(h);
  }

  /** Converting twice is converting once, for every input outside the hsl and NaN cases. */
  lemma {:induction false} ToHexColorIdempotent(color: string)
    requires ToHexColor(color).Some? && !NaNChannel(color)
    ensures ToHexColor(ToHexColor(color).value) == ToHexColor(color)
  {
    ToHexColorIsHex(color);
    ToHexColorFixedPoint(ToHexColor(color).value);
  }

  /** Each number-valued rgb channel becomes the nearest integer, clamped to 0..255, in hex. */
  lemma {:induction false} ChannelRounded(x: real)
    ensures var h := ChannelHex(Some(x));
      var n := 16 * HexDigitValue(h[0]) + HexDigitValue(h[1]);
      0 <= n <= 255 && (x < -0.5 ==> n == 0) && (x >= 254.5 ==> n == 255)
      && (-0.5 <= x < 255.5 ==> n as real <= x + 0.5 < n as real + 1.0)
  {
  }

  /** The text `getComputedStyle` gives for an opaque background, `rgb(a, b, c)`. */
  function RgbText(a: nat, b: nat, c: nat): string {
    RgbOf(NatToString(a), NatToString(b), NatToString(c))
  }

  function RgbOf(x: string, y: string, z: string): string {
    "rgb(" + (x + ", " + y + ", " + z + ")")
  }

  predicate NoUpper(s: string) {
    forall i :: 0 <= i < |s| ==> !('A' <= s[i] <= 'Z')
  }

  lemma {:induction false} NoUpperAppend(x: string, y: string)
    requires NoUpper(x) && NoUpper(y)
    ensures NoUpper(x + y)
  {
    forall i | 0 <= i < |x + y|
      ensures !('A' <= (x + y)[i] <= 'Z')
    {
      if i >= |x| {
        assert (x + y)[i] == y[i - |x|];
      }
    }
  }

  lemma {:induction false} LowerNoUpper(s: string)
    requires NoUpper(s)
    ensures Lower(s) == s
  {
    if s != [] {
      LowerNoUpper(s[1..]);
    }
  }

  /** No character the regex `rgba?\(|\)` can start a match at. */
  predicate Plain(t: string) {
    forall i :: 0 <= i < |t| ==> t[i] != 'r' && t[i] != ')'
  }

  lemma {:induction false} PlainAppend(x: string, y: string)
    requires Plain(x) && Plain(y)
    ensures Plain(x + y)
  {
    forall i | 0 <= i < |x + y|
      ensures (x + y)[i] != 'r' && (x + y)[i] != ')'
    {
      if i >= |x| {
        assert (x + y)[i] == y[i - |x|];
      }
    }
  }

  lemma {:induction false} StripRgbPlain(t: string, tail: string)
    requires Plain(t)
    ensures StripRgb(t + tail) == t + StripRgb(tail)
  {
    if t != [] {
      var u := t + tail;
      assert u[0] == t[0] && u[1..] == t[1..] + tail;
      StripRgbPlain(t[1..], tail);
      assert [t[0]] + t[1..] == t;
    } else {
      assert t + tail == tail;
    }
  }

  /** The regex removes the opening `rgb(` and the closing parenthesis of `rgb(body)`. */
  lemma {:induction false} StripRgbOfRgb(body: string)
    requires Plain(body)
    ensures StripRgb("rgb(" + body + ")") == body
  {
    var s := "rgb(" + body + ")";
    assert s[4..] == body + ")";
    assert MatchLen(s) == 4;
    StripRgbPlain(body, ")");
    assert StripRgb(")") == "";
    assert body + "" == body;
  }

  lemma {:induction false} SplitCommaHead(t: string, tail: string)
    requires ',' !in t
    ensures SplitComma(t + ("," + tail)) == [t] + SplitComma(tail)
  {
    if t == [] {
      assert t + ("," + tail) == "," + tail;
      assert ("," + tail)[1..] == tail;
    } else {
      var u := t + ("," + tail);
      assert u[0] == t[0] && u[1..] == t[1..] + ("," + tail);
      SplitCommaHead(t[1..], tail);
      var w := SplitComma(tail);
      ConsTail(t[1..], w);
      assert [t[0]] + t[1..] == t;
    }
  }

  lemma {:induction false} SplitCommaNone(t: string)
    requires ',' !in t
    ensures SplitComma(t) == [t]
  {
    if t != [] {
      SplitCommaNone(t[1..]);
      assert [t[0]] + t[1..] == t;
    }
  }

  /** A non-empty run of decimal digits. */
  predicate Numeral(x: string) {
    |x| >= 1 && forall i :: 0 <= i < |x| ==> IsDigit(x[i])
  }

  /** What the regex leaves of `rgb(x, y, z)`: `x, y, z`. */
  function RgbBody(x: string, y: string, z: string): string {
    x + ("," + ((" " + y) + ("," + (" " + z))))
  }

  lemma {:induction false} RgbStripped(x: string, y: string, z: string)
    requires Numeral(x) && Numeral(y) && Numeral(z)
    ensures StripRgb(RgbOf(x, y, z)) == RgbBody(x, y, z)
  {
    var third := " " + z;
    var second := (" " + y) + ("," + third);
    var body := RgbBody(x, y, z);
    assert RgbOf(x, y, z) == "rgb(" + body + ")";
    assert Plain(x) && Plain(",") && Plain(" " + y) && Plain(third);
    PlainAppend(",", third);
    PlainAppend(" " + y, "," + third);
    PlainAppend(",", second);
    PlainAppend(x, "," + second);
    StripRgbOfRgb(body);
  }

  /** The body of `rgb(x, y, z)` splits into the three numerals. */
  lemma {:induction false} RgbParts(x: string, y: string, z: string)
    requires Numeral(x) && Numeral(y) && Numeral(z)
    ensures SplitComma(StripRgb(RgbOf(x, y, z))) == [x, " " + y, " " + z]
  {
    RgbStripped(x, y, z);
    var third := " " + z;
    var second := (" " + y) + ("," + third);
    assert ',' !in x && ',' !in " " + y && ',' !in third;
    SplitCommaHead(x, second);
    SplitCommaHead(" " + y, third);
    SplitCommaNone(third);
  }

  lemma {:induction false} ParseSpacedNumber(n: nat)
    ensures ParseFloat(Trim(" " + NatToString(n))) == Some(n as real)
  {
    var d := NatToString(n);
    assert (" " + d)[1..] == d;
    assert TrimStart(" " + d) == TrimStart(d);
    assert TrimStart(d) == d;
    TrimNoOp(d);
    ParseFloatOfNatToString(n);
  }

  lemma {:induction false} ChannelOfByte(n: nat)
    requires n < 256
    ensures ChannelHex(Some(n as real)) == Hex2(n)
  {
    assert Round(n as real) == n;
  }

  lemma {:induction false} RgbTextCanonical(x: string, y: string, z: string)
    requires Numeral(x) && Numeral(y) && Numeral(z)
    ensures Canonical(RgbOf(x, y, z)) == RgbOf(x, y, z)
  {
    var t := x + ", " + y + ", " + z + ")";
    assert NoUpper("rgb(") && NoUpper(x) && NoUpper(", ") && NoUpper(y) && NoUpper(z) && NoUpper(")");
    NoUpperAppend(x, ", ");
    NoUpperAppend(x + ", ", y);
    NoUpperAppend(x + ", " + y, ", ");
    NoUpperAppend(x + ", " + y + ", ", z);
    NoUpperAppend(x + ", " + y + ", " + z, ")");
    NoUpperAppend("rgb(", t);
    LowerNoUpper(RgbOf(x, y, z));
    TrimNoOp(RgbOf(x, y, z));
  }

  lemma {:induction false} HexOfRgb(s: string)
    requires |s| >= 3 && s[0] == 'r' && s[1] == 'g' && s[2] == 'b'
    ensures HexOf(s) == Some(RgbHex(Channels(s)))
  {
    assert StartsWith(s, "rgb");
  }

  lemma {:induction false} ChannelAt(parts: seq<string>, k: nat, v: real)
    requires k < |parts| && ParseFloat(Trim(parts[k])) == Some(v)
    ensures Channel(parts, k) == Some(v)
  {
  }

  lemma {:induction false} ChannelsOfParts(s: string, x: string, y: string, z: string, a: nat, b: nat, c: nat)
    requires SplitComma(StripRgb(s)) == [x, y, z]
    requires ParseFloat(Trim(x)) == Some(a as real) && ParseFloat(Trim(y)) == Some(b as real)
    requires ParseFloat(Trim(z)) == Some(c as real)
    ensures Channels(s) == [Some(a as real), Some(b as real), Some(c as real)]
  {
    var parts := SplitComma(StripRgb(s));
    assert parts[0] == x && parts[1] == y && parts[2] == z;
    ChannelAt(parts, 0, a as real);
    ChannelAt(parts, 1, b as real);
    ChannelAt(parts, 2, c as real);
  }

  lemma {:induction false} ParseNumber(n: nat)
    ensures ParseFloat(Trim(NatToString(n))) == Some(n as real)
  {
    TrimNoOp(NatToString(n));
    ParseFloatOfNatToString(n);
  }

  lemma {:induction false} RgbTextChannels(a: nat, b: nat, c: nat)
    ensures Channels(RgbText(a, b, c)) == [Some(a as real), Some(b as real), Some(c as real)]
  {
    var x, y, z := NatToString(a), NatToString(b), NatToString(c);
    RgbParts(x, y, z);
    ParseNumber(a);
    ParseSpacedNumber(b);
    ParseSpacedNumber(c);
    ChannelsOfParts(RgbOf(x, y, z), x, " " + y, " " + z, a, b, c);
  }

  /** A canonical colour that starts with `rgb` takes the rgb branch. */
  lemma {:induction false} ConvertsRgb(s: string)
    requires Canonical(s) == s && |s| >= 3 && s[0] == 'r' && s[1] == 'g' && s[2] == 'b'
    ensures ToHexColor(s) == Some(RgbHex(Channels(s)))
  {
    HexOfRgb(s);
  }

  lemma {:induction false} RgbTextConverts(a: nat, b: nat, c: nat)
    ensures ToHexColor(RgbText(a, b, c)) == Some(RgbHex(Channels(RgbText(a, b, c))))
  {
    var x, y, z := NatToString(a), NatToString(b), NatToString(c);
    RgbTextCanonical(x, y, z);
    ConvertsRgb(RgbOf(x, y, z));
  }

  /**
   * The computed style `rgb(a, b, c)` of bytes a, b, c converts to the `#rrggbb` whose digit
   * pairs read back as a, b and c.
   */
  lemma {:induction false} RgbRoundTrip(a: nat, b: nat, c: nat)
    requires a < 256 && b < 256 && c < 256
    ensures ToHexColor(RgbText(a, b, c)) == Some("#" + Hex2(a) + Hex2(b) + Hex2(c))
  {
    RgbTextConverts(a, b, c);
    RgbTextChannels(a, b, c);
    ChannelOfByte(a);
    ChannelOfByte(b);
    ChannelOfByte(c);
  }

  // ---------------------------------------------------------------------------------
  // The presets

  function NumpadButton(i: nat): ButtonConfig {
    ButtonConfig("", NatToString(i + 1), NatToString(i + 1), "#f0f0f0", i / 3, i % 3)
  }

  /** The number pad: 1 to 9 in a 3 × 3 grid. */
  function NumpadPreset(): Preset {
    Preset(3, 3, seq(9, i requires 0 <= i < 9 => NumpadButton(i)))
  }

  const GamepadIcons: seq<string> := ["↖", "fas fa-arrow-up", "↗", "fas fa-arrow-left", "fas fa-stop",
                                      "fas fa-arrow-right", "↙", "fas fa-arrow-down", "↘"]

  /** Corners red, edges purple, the centre grey. */
  function GamepadColor(i: nat): string {
    if i == 4 then DefaultColor else if i % 2 == 0 then "#ffcdd2" else "#f3e5f5"
  }

  function GamepadButton(i: nat): ButtonConfig
    requires i < 9
  {
    ButtonConfig("", NatToString(i + 1), GamepadIcons[i], GamepadColor(i), i / 3, i % 3)
  }

  /** The game pad: eight arrows around a stop button, sending 1 to 9. */
  function GamepadPreset(): Preset {
    Preset(3, 3, seq(9, i requires 0 <= i < 9 => GamepadButton(i)))
  }

  /** Both built-in presets fill their 3 × 3 grid in row-major order, button i sending `i+1`. */
  lemma {:induction false} BuiltInPresetsRowMajor()
    ensures var n, g := NumpadPreset(), GamepadPreset();
      WellSized(n) && WellSized(g) && |n.buttons| == 9 && |g.buttons| == 9
      && RowMajor(n.buttons, 3) && RowMajor(g.buttons, 3)
      && (forall i :: 0 <= i < 9 ==> n.buttons[i].value == NatToString(i + 1) && g.buttons[i].value == NatToString(i + 1))
  {
  }

  /** The custom preset once `ensureCustomButtons` has run with the grid `cols` wide. */
  function Ensured(p: Preset, cols: int, pastel: nat -> string): Preset
    requires cols > 0 && p.rows * p.cols >= 0
  {
    p.(buttons := Normalized(Fit(p.buttons, p.rows * p.cols), cols, pastel))
  }

  /** After `ensureCustomButtons` the list fits its preset's grid and is in row-major order. */
  lemma {:induction false} EnsuredFits(p: Preset, pastel: nat -> string)
    requires WellSized(p)
    ensures var e := Ensured(p, p.cols, pastel);
      |e.buttons| <= p.rows * p.cols && RowMajor(e.buttons, p.cols)
      && (forall i :: 0 <= i < |e.buttons| ==> e.buttons[i].row < p.rows)
  {
    var e := Ensured(p, p.cols, pastel);
    NormalizedFacts(Fit(p.buttons, p.rows * p.cols), p.cols, pastel);
    forall i | 0 <= i < |e.buttons|
      ensures e.buttons[i].row < p.rows
    {
      InGrid(i, p.rows, p.cols);
    }
  }

  /** The buttons after a deleted one move back one place; the others keep theirs. */
  lemma {:induction false} RemoveAtShifts(bs: seq<ButtonConfig>, idx: nat, cols: int, pastel: nat -> string, j: nat)
    requires cols > 0 && idx < |bs| && j < |bs| - 1
    ensures Normalized(RemoveAt(bs, idx), cols, pastel)[j]
            == NormalizeButton(if j < idx then bs[j] else bs[j + 1], j, cols, pastel(j))
  {
    var r := RemoveAt(bs, idx);
    NormalizedAt(r, cols, pastel, j);
    if j < idx {
      assert r[j] == r[..idx][j] == bs[..idx][j];
    } else {
      assert r[j] == r[idx..][j - idx] == bs[idx + 1..][j - idx];
    }
  }

  /** Deleting removes exactly the button the cell shows, when the list is in row-major order. */
  lemma {:induction false} DeleteRemovesShown(bs: seq<ButtonConfig>, cols: int, cell: Cell, pastel: nat -> string)
    requires cols > 0 && RowMajor(bs, cols) && cell.col < cols && cell.row * cols + cell.col < |bs|
    ensures FindCell(bs, cell) == Some(cell.row * cols + cell.col)
    ensures |Normalized(RemoveAt(bs, cell.row * cols + cell.col), cols, pastel)| == |bs| - 1
  {
    FindCellRowMajor(bs, cols, cell);
  }

  /** The loop of `normalizeCustomButtons()`: each button in turn renumbered and filled in. */
  method NormalizeButtons(bs: seq<ButtonConfig>, cols: int, pastel: nat -> string) returns (normalized: seq<ButtonConfig>)
    requires cols > 0
    ensures normalized == Normalized(bs, cols, pastel)
  {
    normalized := [];
    for i := 0 to |bs|
      invariant normalized == Normalized(bs[..i], cols, pastel)
    {
      NormalizedSnoc(bs, cols, pastel, i);
      normalized := normalized + [NormalizeButton(bs[i], i, cols, pastel(i))];
    }
    TakeAll(bs);
  }

  /** The nested loops of `createCustomGrid()`: `rows × cols` generated buttons, row by row. */
  method GenerateButtons(rows: nat, cols: nat, pastel: nat -> string) returns (buttons: seq<ButtonConfig>)
    requires cols > 0
    ensures buttons == DefaultButtons(rows * cols, cols, pastel)
  {
    buttons := [];
    for row := 0 to rows
      invariant buttons == DefaultButtons(row * cols, cols, pastel)
    {
      var start := row * cols;
      for col := 0 to cols
        invariant buttons == DefaultButtons(start + col, cols, pastel)
      {
        GenerateStep(row, col, cols, pastel);
        buttons := buttons + [ButtonConfig(DefaultLabel(start + col + 1), DefaultValue(start + col + 1), "", pastel(start + col), row, col)];
      }
      RowEnd(row, cols);
    }
  }

  /** One step of the inner loop: the next generated button sits at (`row`, `col`). */
  lemma {:induction false} GenerateStep(row: nat, col: nat, cols: int, pastel: nat -> string)
    requires 0 <= col < cols
    ensures var k := row * cols + col;
      DefaultButtons(k + 1, cols, pastel)
      == DefaultButtons(k, cols, pastel) + [ButtonConfig(DefaultLabel(k + 1), DefaultValue(k + 1), "", pastel(k), row, col)]
  {
    RowMajorIndex(row, col, cols);
  }

  lemma {:induction false} RowEnd(row: nat, cols: nat)
    ensures row * cols + cols == (row + 1) * cols
  {
  }

  predicate AllWellSized(m: map<string, Preset>) {
    forall name :: name in m ==> WellSized(m[name])
  }

  /** Replacing one preset by a well-sized one keeps every preset well-sized. */
  lemma {:induction false} PresetsStayWellSized(m: map<string, Preset>, name: string, p: Preset)
    requires AllWellSized(m) && WellSized(p)
    ensures AllWellSized(m[name := p])
  {
  }

  datatype DeleteOutcome = NothingSelected | NotCustom | LastButton | Deleted(index: nat)

  /** Every field of the manager the model keeps, as one value. */
  datatype State = State(rows: int, cols: int, presets: map<string, Preset>, presetName: string,
                         editMode: bool, editing: Option<Cell>, editSnapshot: Option<Preset>,
                         sizeSnapshot: Option<Size>, stored: Option<Preset>)

  function InitialPresets(saved: Option<Preset>): map<string, Preset> {
    map[Numpad := NumpadPreset(), Gamepad := GamepadPreset(),
        Custom := if saved.Some? then saved.value else Preset(5, 5, [])]
  }

  /**
   * `ButtonGridManager`. `presetName` is the preset selector's value, `editMode` the page's
   * edit-mode class, `editing` the cell of the button open in the editor (the editor is open
   * exactly when it is set), and `stored` the layout saved in local storage.
   */
  class ButtonGridManager {
    var rows: int
    var cols: int
    var presets: map<string, Preset>
    var presetName: string
    var editMode: bool
    var editing: Option<Cell>
    var editSnapshot: Option<Preset>
    var sizeSnapshot: Option<Size>
    var stored: Option<Preset>

    function Model(): State
      reads this
    {
      State(rows, cols, presets, presetName, editMode, editing, editSnapshot, sizeSnapshot, stored)
    }

    /** Grid sizes stay within 1..5 × 1..5 and the selected preset exists. */
    predicate Valid()
      reads this
    {
      InRange(rows, cols) && Custom in presets && presetName in presets
      && AllWellSized(presets)
      && (editSnapshot.Some? ==> WellSized(editSnapshot.value))
      && (sizeSnapshot.Some? ==> InRange(sizeSnapshot.value.rows, sizeSnapshot.value.cols))
      && (editSnapshot.Some? || sizeSnapshot.Some? ==> editMode)
    }

    /**
     * The constructor with `loadCustomPreset`: the built-in presets, and the saved custom layout
     * when there is one. `selected` is the option the preset selector starts on.
     */
    constructor (saved: Option<Preset>, selected: string)
      requires selected == Numpad || selected == Gamepad || selected == Custom
      requires saved.Some? ==> WellSized(saved.value)
      ensures Valid()
      ensures Model() == State(5, 5, InitialPresets(saved), selected, false, None, None, None, saved)
    {
      rows, cols := 5, 5;
      presets := InitialPresets(saved);
      presetName := selected;
      editMode := false;
      editing := None;
      editSnapshot, sizeSnapshot := None, None;
      stored := saved;
    }

    /** `normalizeCustomButtons()`: the custom list rebuilt in row-major order for `cols`. */
    method NormalizeCustomButtons(pastel: nat -> string)
      requires Valid()
      modifies this
      ensures Valid()
      ensures Model() == old(Model()).(presets := old(presets)[Custom :=
                old(presets[Custom]).(buttons := Normalized(old(presets[Custom].buttons), cols, pastel))])
    {
      var normalized := NormalizeButtons(presets[Custom].buttons, cols, pastel);
      PresetsStayWellSized(presets, Custom, presets[Custom].(buttons := normalized));
      presets := presets[Custom := presets[Custom].(buttons := normalized)];
    }

    /** `ensureCustomButtons()`: cut the custom list to its grid, then normalise it. */
    method EnsureCustomButtons(pastel: nat -> string)
      requires Valid()
      modifies this
      ensures Valid()
      ensures Model() == old(Model()).(presets := old(presets)[Custom := Ensured(old(presets[Custom]), cols, pastel)])
    {
      var preset := presets[Custom];
      var expected := preset.rows * preset.cols;
      if |preset.buttons| > expected {
        PresetsStayWellSized(presets, Custom, preset.(buttons := preset.buttons[..expected]));
        presets := presets[Custom := preset.(buttons := preset.buttons[..expected])];
      }
      NormalizeCustomButtons(pastel);
    }

    /** `loadPreset(name)`: take the preset's size, and fit the custom list to it. */
    method LoadPreset(name: string, pastel: nat -> string)
      requires Valid()
      modifies this
      ensures Valid()
      ensures name !in old(presets) ==> Model() == old(Model())
      ensures name in old(presets) && name != Custom ==>
                Model() == old(Model()).(rows := old(presets[name]).rows, cols := old(presets[name]).cols)
      ensures name == Custom ==>
                Model() == old(Model()).(rows := old(presets[Custom]).rows, cols := old(presets[Custom]).cols,
                                         presets := old(presets)[Custom := Ensured(old(presets[Custom]), cols, pastel)])
    {
      if name !in presets {
        return;
      }
      var preset := presets[name];
      rows, cols := preset.rows, preset.cols;
      if name == Custom {
        EnsureCustomButtons(pastel);
      }
    }

    /** The preset selector's change handler: leave edit mode, then load the chosen preset. */
    method SelectPreset(name: string, pastel: nat -> string)
      requires Valid() && name in presets
      modifies this
      ensures Valid()
      ensures presetName == name && !editMode && editSnapshot.None? && sizeSnapshot.None?
      ensures rows == presets[name].rows && cols == presets[name].cols
      ensures name == Custom ==> |presets[Custom].buttons| <= rows * cols
      ensures var chosen := old(Model()).(presetName := name);
        Model() == PresetLoaded(if old(editMode) then EditLeft(chosen) else chosen, name, pastel)
    {
      presetName := name;
      if editMode {
        var _ := ToggleEditMode(false);
      }
      LoadPreset(name, pastel);
    }

    /**
     * `createCustomGrid()` for the parsed rows and columns fields (`None` for NaN): a size outside
     * 1..5 × 1..5 changes nothing; otherwise the custom preset becomes that many generated
     * buttons and is saved.
     */
    method CreateCustomGrid(rowsIn: Option<int>, colsIn: Option<int>, pastel: nat -> string) returns (created: bool)
      requires Valid()
      modifies this
      ensures Valid()
      ensures created == SizeAccepted(rowsIn, colsIn)
      ensures !created ==> Model() == old(Model())
      ensures created ==>
                var p := Preset(rowsIn.value, colsIn.value, DefaultButtons(rowsIn.value * colsIn.value, colsIn.value, pastel));
                Model() == old(Model()).(rows := rowsIn.value, cols := colsIn.value,
                                         presets := old(presets)[Custom := p], stored := Some(p))
    {
      if !SizeAccepted(rowsIn, colsIn) {
        return false;
      }
      var r, c := rowsIn.value, colsIn.value;
      var buttons := GenerateButtons(r, c, pastel);
      var p := Preset(r, c, buttons);
      rows, cols := r, c;
      PresetsStayWellSized(presets, Custom, p);
      presets := presets[Custom := p];
      stored := Some(p);
      created := true;
    }

    /**
     * `addNewButton()`: on a full grid add a row, else a column, and refuse at 5 × 5; then append
     * the next generated button at the next row-major cell.
     */
    method AddNewButton(color: string) returns (added: bool)
      requires Valid()
      modifies this
      ensures Valid()
      ensures var n := |old(presets[Custom].buttons)|;
        var g := Grow(Size(old(rows), old(cols)), n);
        added == g.Some?
        && (!added ==> Model() == old(Model()))
        && (added ==>
              var p := old(presets[Custom]);
              Model() == old(Model()).(rows := g.value.rows, cols := g.value.cols,
                presets := old(presets)[Custom := Preset(if g.value.rows != old(rows) then g.value.rows else p.rows,
                                                         if g.value.cols != old(cols) then g.value.cols else p.cols,
                                                         p.buttons + [DefaultButton(n, g.value.cols, color)])]))
    {
      var preset := presets[Custom];
      if |preset.buttons| >= rows * cols {
        if rows < MaxRows {
          rows := rows + 1;
          preset := preset.(rows := rows);
        } else if cols < MaxCols {
          cols := cols + 1;
          preset := preset.(cols := cols);
        } else {
          return false;
        }
      }
      var index := |preset.buttons|;
      preset := preset.(buttons := preset.buttons + [ButtonConfig(DefaultLabel(index + 1), DefaultValue(index + 1), "", color, index / cols, index % cols)]);
      PresetsStayWellSized(presets, Custom, preset);
      presets := presets[Custom := preset];
      added := true;
    }

    /**
     * `editButton(button)` for the button in `cell`: open the editor on it, first adding a
     * default configuration when the preset has none at that cell.
     */
    method EditButton(cell: Cell)
      requires Valid()
      modifies this
      ensures Valid()
      ensures var bs := old(presets[presetName].buttons);
        var added := ButtonConfig(DefaultLabel(cell.row * old(cols) + cell.col + 1),
                                  DefaultValue(cell.row * old(cols) + cell.col + 1), "", DefaultColor, cell.row, cell.col);
        Model() == old(Model()).(editing := Some(cell),
          presets := if FindCell(bs, cell).Some? then old(presets)
                     else old(presets)[presetName := old(presets[presetName]).(buttons := bs + [added])])
      ensures FindCell(presets[presetName].buttons, cell).Some?
    {
      editing := Some(cell);
      var preset := presets[presetName];
      if FindCell(preset.buttons, cell).None? {
        var index := cell.row * cols + cell.col + 1;
        var bs := preset.buttons + [ButtonConfig(DefaultLabel(index), DefaultValue(index), "", DefaultColor, cell.row, cell.col)];
        FindCellFirst(bs, cell, |preset.buttons|);
        PresetsStayWellSized(presets, presetName, preset.(buttons := bs));
        presets := presets[presetName := preset.(buttons := bs)];
      }
    }

    /**
     * `saveButtonConfig()` with the editor's inputs: write the trimmed fields (the label cut to
     * six characters) to the button at the edited cell, or append one there, then close the
     * editor. Nothing happens when no button is being edited.
     */
    method SaveButtonConfig(form: Form)
      requires Valid()
      modifies this
      ensures Valid()
      ensures Model() == old(Model()).(presets := Saved(old(Model()), form), editing := None)
      ensures old(editing).Some? ==>
                FindCell(presets[presetName].buttons, old(editing).value).Some?
                && var i := FindCell(presets[presetName].buttons, old(editing).value).value;
                   presets[presetName].buttons[i] == EditedConfig(form, old(editing).value)
    {
      if editing.None? {
        return;
      }
      var cell := editing.value;
      var preset := presets[presetName];
      SaveConfigShows(preset.buttons, cell, form);
      PresetsStayWellSized(presets, presetName, preset.(buttons := SaveConfig(preset.buttons, cell, EditedConfig(form, cell))));
      presets := presets[presetName := preset.(buttons := SaveConfig(preset.buttons, cell, EditedConfig(form, cell)))];
      editing := None;
    }

    /**
     * `deleteCurrentButton()`: refused without an edited button, outside the custom preset, or
     * when one button is left; otherwise the button at index `row·cols + col` goes, the rest are
     * normalised and the editor closes.
     */
    method DeleteCurrentButton(pastel: nat -> string) returns (outcome: DeleteOutcome)
      requires Valid()
      modifies this
      ensures Valid()
      ensures outcome == (if old(editing).None? then NothingSelected
                          else if old(presetName) != Custom then NotCustom
                          else if |old(presets[Custom].buttons)| <= 1 then LastButton
                          else Deleted(old(editing).value.row * old(cols) + old(editing).value.col))
      ensures !outcome.Deleted? ==> Model() == old(Model())
      ensures outcome.Deleted? ==>
                Model() == old(Model()).(editing := None, presets := old(presets)[Custom :=
                  old(presets[Custom]).(buttons := Normalized(RemoveAt(old(presets[Custom].buttons), outcome.index), cols, pastel))])
    {
      if editing.None? {
        outcome := NothingSelected;
      } else if presetName != Custom {
        outcome := NotCustom;
      } else if |presets[Custom].buttons| <= 1 {
        outcome := LastButton;
      } else {
        var preset := presets[Custom];
        var idx := editing.value.row * cols + editing.value.col;
        var normalized := NormalizeButtons(RemoveAt(preset.buttons, idx), cols, pastel);
        PresetsStayWellSized(presets, Custom, preset.(buttons := normalized));
        presets := presets[Custom := preset.(buttons := normalized)];
        editing := None;
        outcome := Deleted(idx);
      }
    }

    /**
     * `toggleEditMode(enable)`. Entering (custom preset only) snapshots the custom preset and the
     * grid size. Leaving closes the editor and, when a snapshot exists, puts back the custom
     * preset and the size it recorded; both snapshots are then cleared.
     */
    method ToggleEditMode(enable: bool) returns (done: bool)
      requires Valid()
      modifies this
      ensures Valid()
      ensures done == (!enable || old(presetName) == Custom)
      ensures !done ==> Model() == old(Model())
      ensures enable && done ==>
                Model() == old(Model()).(editMode := true, editSnapshot := Some(old(presets[Custom])),
                                         sizeSnapshot := Some(Size(old(rows), old(cols))))
      ensures !enable ==> !editMode && editing.None? && editSnapshot.None? && sizeSnapshot.None?
      ensures !enable ==> presetName == old(presetName) && stored == old(stored)
      ensures !enable && old(editSnapshot).None? ==> rows == old(rows) && cols == old(cols) && presets == old(presets)
      ensures !enable && old(editSnapshot).Some? ==>
                presets == old(presets)[Custom := Restored(old(editSnapshot).value, old(sizeSnapshot))]
                && (old(sizeSnapshot).Some? ==> rows == old(sizeSnapshot).value.rows && cols == old(sizeSnapshot).value.cols)
                && (old(sizeSnapshot).None? ==> rows == old(rows) && cols == old(cols))
    {
      if enable {
        if presetName != Custom {
          return false;
        }
        editSnapshot := Some(presets[Custom]);
        sizeSnapshot := Some(Size(rows, cols));
        editMode := true;
        return true;
      }
      editMode := false;
      editing := None;
      if editSnapshot.Some? {
        var p := editSnapshot.value;
        if sizeSnapshot.Some? {
          rows, cols := sizeSnapshot.value.rows, sizeSnapshot.value.cols;
          p := p.(rows := rows, cols := cols);
        }
        PresetsStayWellSized(presets, Custom, p);
        presets := presets[Custom := p];
      }
      editSnapshot, sizeSnapshot := None, None;
      done := true;
    }

    /**
     * `saveGridChanges()`: save the button open in the editor, store the custom preset, drop the
     * snapshots so that leaving edit mode keeps the edits, and leave edit mode.
     */
    method SaveGridChanges(form: Form)
      requires Valid()
      modifies this
      ensures Valid()
      ensures var saved := Saved(old(Model()), form);
        Model() == old(Model()).(presets := saved, editMode := false, editing := None,
                                 editSnapshot := None, sizeSnapshot := None,
                                 stored := if old(presetName) == Custom then Some(saved[Custom]) else old(stored))
    {
      if editing.Some? {
        SaveButtonConfig(form);
      }
      if presetName == Custom {
        stored := Some(presets[Custom]);
      }
      editSnapshot, sizeSnapshot := None, None;
      var _ := ToggleEditMode(false);
    }
  }

  /** The presets once the editor's form is saved to the edited cell (unchanged with none). */
  function Saved(st: State, form: Form): map<string, Preset>
    requires st.presetName in st.presets
  {
    if st.editing.None? then st.presets
    else
      var p := st.presets[st.presetName];
      st.presets[st.presetName := p.(buttons := SaveConfig(p.buttons, st.editing.value, EditedConfig(form, st.editing.value)))]
  }

  /** The custom preset a rollback puts back: the snapshot, resized to the recorded grid. */
  function Restored(snapshot: Preset, size: Option<Size>): (p: Preset)
    ensures p.buttons == snapshot.buttons
    ensures size.Some? ==> p.rows == size.value.rows && p.cols == size.value.cols
    ensures size.None? ==> p == snapshot
  {
    if size.Some? then snapshot.(rows := size.value.rows, cols := size.value.cols) else snapshot
  }

  /**
   * The state once edit mode is left: the editor closed, the custom preset and the grid size put
   * back from the snapshots when there are any, and the snapshots cleared.
   */
  function EditLeft(st: State): State {
    var back := st.editSnapshot.Some?;
    var resize := back && st.sizeSnapshot.Some?;
    st.(rows := if resize then st.sizeSnapshot.value.rows else st.rows,
        cols := if resize then st.sizeSnapshot.value.cols else st.cols,
        presets := if back then st.presets[Custom := Restored(st.editSnapshot.value, st.sizeSnapshot)] else st.presets,
        editMode := false, editing := None, editSnapshot := None, sizeSnapshot := None)
  }

  /** The state once preset `name` is loaded: its size, and for the custom preset the fitted list. */
  function PresetLoaded(st: State, name: string, pastel: nat -> string): State
    requires name in st.presets && (name == Custom ==> WellSized(st.presets[Custom]))
  {
    var p := st.presets[name];
    var sized := st.(rows := p.rows, cols := p.cols);
    if name == Custom then sized.(presets := st.presets[Custom := Ensured(p, p.cols, pastel)]) else sized
  }

  /** A snapshot taken of a preset whose size is the grid's gives that preset back unchanged. */
  lemma {:induction false} RollbackRestores(p: Preset, rows: int, cols: int)
    requires p.rows == rows && p.cols == cols
    ensures Restored(p, Some(Size(rows, cols))) == p
  {
  }
}
