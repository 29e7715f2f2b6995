/** A query's answer as captured from a DuckDB server, frame 2 of the capture
    without its header, and the table it decodes to. */
module CapturedResult {
  import opened Basics
  import opened Leb128
  import opened Framing
  import opened LogicalTypes
  import opened Values
  import opened Vectors
  import opened VectorWire
  import opened Chunks
  import opened ChunkBack
  import opened WireFormat
  import opened Storage

  // ---- the bytes, from the end ---------------------------------------------------------------

  function Upper(): Bytes { [219, 135, 165, 180, 166, 180, 153, 196, 153, 127] }
  function Lower(): Bytes { [135, 247, 204, 220, 201, 183, 240, 210, 185, 1] }

  function Uuid(): Bytes { [5, 0] + (Upper() + (Lower() + [255, 255])) }

  /** The ends of the chunk and of its wrapper. */
  function AfterColumns(): Bytes { [255, 255] + ([255, 255] + Uuid()) }

  function Cell(low: Byte, high: Byte): (s: Bytes)
    ensures |s| == 16
  {
    [low, high, 0, 0, 0, 0, 0, 0, 0, 0, 0, 0, 0, 0, 0, 0]
  }

  function Cells(): (s: Bytes)
    ensures |s| == 64
  {
    Cell(0xC4, 0x22) + (Cell(0xF4, 0x1A) + (Cell(0x6D, 0x17) + Cell(0xA9, 0x01)))
  }

  function Revenues(): Bytes { [100, 0, 0, 102, 0, 64] + (Cells() + ([255, 255] + AfterColumns())) }

  // "waders", "decoy", "duck call", "pond snacks"
  function Waders(): Bytes { [119, 97, 100, 101, 114, 115] }
  function Decoy(): Bytes { [100, 101, 99, 111, 121] }
  function DuckCall(): Bytes { [100, 117, 99, 107, 32, 99, 97, 108, 108] }
  function PondSnacks(): Bytes { [112, 111, 110, 100, 32, 115, 110, 97, 99, 107, 115] }

  function Products(): Bytes
  {
    [100, 0, 0, 102, 0, 4] + ([6] + Waders() + ([5] + Decoy() + ([9] + DuckCall() + ([11] + PondSnacks() + ([255, 255] + Revenues())))))
  }

  function TextType(): Bytes { [100, 0, 25, 255, 255] }
  function DecimalType(): Bytes { [100, 0, 21, 101, 0, 1, 100, 0, 2, 200, 0, 38, 201, 0, 2, 255, 255, 255, 255] }

  function ChunkPart(): Bytes
  {
    [100, 0] + ([4] + ([101, 0] + ([2] + (TextType() + (DecimalType() + ([102, 0] + ([2] + Products())))))))
  }

  // "product", "revenue"
  function Product(): Bytes { [112, 114, 111, 100, 117, 99, 116] }
  function Revenue(): Bytes { [114, 101, 118, 101, 110, 117, 101] }

  function Names(): Bytes
  {
    [2, 0] + ([2] + ([7] + Product() + ([7] + Revenue() + ([4, 0] + ([1] + ([1, 44, 1] + ChunkPart()))))))
  }

  function Frame(): Bytes { [1, 0] + ([2] + (TextType() + (DecimalType() + Names()))) }

  // ---- what was sent ------------------------------------------------------------------------

  function Varchar(): LogicalType { Plain(25) }
  function Money(): LogicalType { Plain(21).(width := 38, scale := 2) }

  function ProductsVec(): Vec { Flat(None, None, Texts([Waders(), Decoy(), DuckCall(), PondSnacks()])) }
  function RevenuesVec(): Vec { Flat(None, None, Fixed(Cells())) }

  function Wire(): ChunkWire
  {
    ChunkWire(4, [ColumnWire(Varchar(), ProductsVec()), ColumnWire(Money(), RevenuesVec())])
  }

  function Defs(): seq<ColumnDef> { [ColumnDef(Product(), Varchar()), ColumnDef(Revenue(), Money())] }

  function Id(): Hugeint { Hugeint(-7383539840894549029, 13377311283982056327) }

  function Amount(n: nat): Value { VDecimal(Decimal(38, 2, 0, n)) }

  /** The table the capture's query returned. */
  function Table(): Chunk
  {
    Chunk(4, [Column(Varchar(), Vals([VString(Waders()), VString(Decoy()), VString(DuckCall()), VString(PondSnacks())])),
              Column(Money(), Vals([Amount(8900), Amount(6900), Amount(5997), Amount(425)]))])
  }

  // ---- the uuid's varints ----------------------------------------------------------------------

  lemma SvMore(v: int, low: nat, s: Bytes)
    requires SvEncode(v) == s && low < 128 && !(-64 <= 128 * v + low < 64)
    ensures SvEncode(128 * v + low) == [low + 128] + s
  {
  }

  lemma UvMore(v: nat, low: nat, s: Bytes)
    requires UvEncode(v) == s && v > 0 && low < 128
    ensures UvEncode(128 * v + low) == [low + 128] + s
  {
  }

  lemma LastBytes()
    ensures SvEncode(-1) == [127] && UvEncode(1) == [1]
  {
  }

  lemma UpperBytes()
    ensures SvEncode(Id().upper) == Upper()
  {
    hide SvEncode;
    LastBytes();
    SvMore(-1, 25, [127]);
    SvMore(-103, 68, [153, 127]);
    SvMore(-13116, 25, [196, 153, 127]);
    SvMore(-1678823, 52, [153, 196, 153, 127]);
    SvMore(-214889292, 38, [180, 153, 196, 153, 127]);
    SvMore(-27505829338, 52, [166, 180, 153, 196, 153, 127]);
    SvMore(-3520746155212, 37, [180, 166, 180, 153, 196, 153, 127]);
    SvMore(-450655507867099, 7, [165, 180, 166, 180, 153, 196, 153, 127]);
    SvMore(-57683905006988665, 91, [135, 165, 180, 166, 180, 153, 196, 153, 127]);
  }

  lemma LowerBytes()
    ensures UvEncode(Id().lower) == Lower()
  {
    hide UvEncode;
    LastBytes();
    UvMore(1, 57, [1]);
    UvMore(185, 82, [185, 1]);
    UvMore(23762, 112, [210, 185, 1]);
    UvMore(3041648, 55, [240, 210, 185, 1]);
    UvMore(389330999, 73, [183, 240, 210, 185, 1]);
    UvMore(49834367945, 92, [201, 183, 240, 210, 185, 1]);
    UvMore(6378799097052, 76, [220, 201, 183, 240, 210, 185, 1]);
    UvMore(816486284422732, 119, [204, 220, 201, 183, 240, 210, 185, 1]);
    UvMore(104510244406109815, 7, [247, 204, 220, 201, 183, 240, 210, 185, 1]);
  }

  // ---- the printed form is the frame -----------------------------------------------------------

  lemma Small(n: nat)
    requires n < 128
    ensures UvEncode(n) == [n]
  {
  }

  lemma Short(s: Bytes)
    requires |s| < 128
    ensures Prefixed(s) == [|s|] + s
  {
  }

  lemma TypesFit()
    ensures WellFormed(Varchar()) && WellFormed(Money()) && Height(Varchar()) == 0 && Height(Money()) == 0
  {
  }

  lemma MoneyWritten(k: Bytes)
    ensures WellFormed(Money()) && TypeBytes(Money(), k) == DecimalType() + k
  {
    TypesFit();
    hide WellFormed, TypeBytes, InfoBody;
    TypeWithInfoBytes(Money(), k);
    DecimalInfoBytes(Money(), [255, 255, 255, 255] + k);
    var end := [255, 255, 255, 255] + k;
    assert [200, 0, 38] + ([201, 0, 2] + end) == [200, 0, 38, 201, 0, 2, 255, 255, 255, 255] + k;
    var x := [200, 0, 38, 201, 0, 2, 255, 255, 255, 255] + k;
    assert [100, 0, 21, 101, 0, 1, 100, 0] + ([2] + x) == [100, 0, 21, 101, 0, 1, 100, 0, 2] + x;
    assert [100, 0, 21, 101, 0, 1, 100, 0, 2] + x == DecimalType() + k;
  }

  lemma TypesWritten(k: Bytes)
    ensures WellFormed(Varchar()) && WellFormed(Money()) && Height(Varchar()) == 0 && Height(Money()) == 0
    ensures TypesBytes([Varchar(), Money()], k) == TextType() + (DecimalType() + k)
  {
    TypesFit();
    PlainTypeBytes(25, DecimalType() + k);
    MoneyWritten(k);
    hide WellFormed, TypeBytes, TypesBytes, DecimalType, Money, Height;
    TypeListBytes([Varchar(), Money()], k);
    TypeListBytes([Money()], k);
    assert [Varchar(), Money()][1..] == [Money()] && [Money()][1..] == [];
  }

  lemma ProductsWritten(k: Bytes)
    ensures VecBytes(ProductsVec(), k)
            == [100, 0, 0, 102, 0, 4] + ([6] + Waders() + ([5] + Decoy() + ([9] + DuckCall() + ([11] + PondSnacks() + k))))
  {
    hide Waders, Decoy, DuckCall, PondSnacks, VecBytes, BodyBytes, StringsBytes, UvEncode;
    var items := [Waders(), Decoy(), DuckCall(), PondSnacks()];
    FlatBytes(None, None, Texts(items), k);
    BodiesBytes(items, [], [], k);
    Small(4);
    var x := StringsBytes(items, k);
    StringsWritten(k);
    assert [100, 0, 0] + ([102, 0] + ([4] + x)) == [100, 0, 0, 102, 0, 4] + x;
  }

  lemma StringsWritten(k: Bytes)
    ensures StringsBytes([Waders(), Decoy(), DuckCall(), PondSnacks()], k)
            == [6] + Waders() + ([5] + Decoy() + ([9] + DuckCall() + ([11] + PondSnacks() + k)))
  {
    Short(Waders());
    Short(Decoy());
    Short(DuckCall());
    Short(PondSnacks());
    Lengths();
    hide Prefixed, Waders, Decoy, DuckCall, PondSnacks;
    Next(PondSnacks(), [], k);
    Next(DuckCall(), [PondSnacks()], k);
    Next(Decoy(), [DuckCall(), PondSnacks()], k);
    Next(Waders(), [Decoy(), DuckCall(), PondSnacks()], k);
    assert [DuckCall()] + [PondSnacks()] == [DuckCall(), PondSnacks()];
    assert [Decoy()] + [DuckCall(), PondSnacks()] == [Decoy(), DuckCall(), PondSnacks()];
    assert [Waders()] + [Decoy(), DuckCall(), PondSnacks()] == [Waders(), Decoy(), DuckCall(), PondSnacks()];
    assert [PondSnacks()] + [] == [PondSnacks()];
  }

  lemma Lengths()
    ensures |Waders()| == 6 && |Decoy()| == 5 && |DuckCall()| == 9 && |PondSnacks()| == 11
    ensures |Product()| == 7 && |Revenue()| == 7
  {
  }

  lemma Next(item: Bytes, rest: seq<Bytes>, k: Bytes)
    ensures StringsBytes([item] + rest, k) == Prefixed(item) + StringsBytes(rest, k)
    ensures StringsBytes([], k) == k
  {
    hide Prefixed;
    assert ([item] + rest)[1..] == rest;
  }

  lemma Joined(n: Byte, data: Bytes, k: Bytes)
    ensures [100, 0, 0] + ([102, 0] + (([n] + data) + k)) == [100, 0, 0, 102, 0, n] + (data + k)
  {
  }

  lemma CellsWritten(data: Bytes, k: Bytes)
    requires |data| < 128
    ensures VecBytes(Flat(None, None, Fixed(data)), k) == [100, 0, 0, 102, 0, |data|] + (data + k)
  {
    Short(data);
    hide VecBytes, BodyBytes, Prefixed;
    FlatBytes(None, None, Fixed(data), k);
    BodiesBytes([], [], data, k);
    Joined(|data|, data, k);
  }

  lemma RevenuesWritten(k: Bytes)
    ensures VecBytes(RevenuesVec(), k) == [100, 0, 0, 102, 0, 64] + (Cells() + k)
  {
    assert |Cells()| == 64;
    hide Cells, VecBytes;
    CellsWritten(Cells(), k);
  }

  lemma ChunkWritten()
    ensures WellFormedColumns(Wire().cols)
    ensures ChunkBytes(Wire(), [255, 255] + Uuid()) == ChunkPart()
  {
    TypesWritten([102, 0] + ([2] + Products()));
    hide TypesBytes, Height, WellFormed;
    var k := [255, 255] + Uuid();
    var cols := Wire().cols;
    assert ColumnTypes(cols) == [Varchar(), Money()];
    ChunksBytes(Wire(), k);
    Small(4);
    Small(2);
    ColumnsWritten([255, 255] + k);
    hide ChunkBytes, ColumnsBytes, VecBytes, UvEncode, Products, Varchar, Money, TextType, DecimalType;
  }

  lemma ColumnsWritten(k: Bytes)
    requires k == AfterColumns()
    ensures ColumnsBytes(Wire().cols, k) == Products()
  {
    var cols := Wire().cols;
    hide VecBytes, ProductsVec, RevenuesVec, AfterColumns, Cells;
    assert cols[1..] == [cols[1]] && cols[1..][1..] == [];
    assert ColumnsBytes(cols[1..], k) == VecBytes(RevenuesVec(), [255, 255] + k);
    RevenuesWritten([255, 255] + k);
    ProductsWritten([255, 255] + Revenues());
  }

  lemma NamesWritten()
    ensures var more := [4, 0] + ([1] + ([1, 44, 1] + ChunkPart()));
            [2, 0] + ([2] + StringsBytes([Product(), Revenue()], more)) == Names()
  {
    Lengths();
    Short(Product());
    Short(Revenue());
    hide ChunkPart, StringsBytes, Prefixed, Product, Revenue;
    var more := [4, 0] + ([1] + ([1, 44, 1] + ChunkPart()));
    Next(Revenue(), [], more);
    Next(Product(), [Revenue()], more);
    assert [Product()] + [Revenue()] == [Product(), Revenue()] && [Revenue()] + [] == [Revenue()];
  }

  lemma ListWritten()
    ensures Printable([Some(Wire())]) && ChunkListBytes([Some(Wire())], Uuid()) == [1] + ([1, 44, 1] + ChunkPart())
  {
    ChunkWritten();
    Small(1);
    hide ChunkBytes, Wire, ChunkPart, UvEncode, Uuid, WellFormed, ChunkListBytes, EntriesOfChunks;
    assert [Some(Wire())][1..] == [];
    ChunkListEntryBytes([Some(Wire())], Uuid());
  }

  lemma DefsAre()
    ensures DefsWellFormed(Defs()) && |Defs()| == 2
    ensures DefTypes(Defs()) == [Varchar(), Money()] && DefNames(Defs()) == [Product(), Revenue()]
  {
    TypesFit();
    Lengths();
    hide WellFormed, Varchar, Money, Product, Revenue;
  }

  lemma FrameWritten()
    ensures DefsWellFormed(Defs()) && Printable([Some(Wire())])
    ensures PrepareBytes(Defs(), [Some(Wire())], false, Id()) == Frame()
  {
    hide *;
    ListWritten();
    NamesWritten();
    TypesWritten(Names());
    DefsAre();
    UpperBytes();
    LowerBytes();
    PrepareBodyBytes(Defs(), [Some(Wire())], false, Id());
    Small(2);
    FrameIs();
  }

  lemma FrameIs()
    ensures Frame() == [1, 0] + ([2] + (TextType() + (DecimalType() + Names())))
    ensures Uuid() == [5, 0] + (Upper() + (Lower() + [255, 255])) && Defs() != []
  {
  }

  // ---- what it means ----------------------------------------------------------------------------

  lemma CellsMean()
    ensures Cells()[0..16] == Cell(0xC4, 0x22) && Cells()[16..32] == Cell(0xF4, 0x1A)
    ensures Cells()[32..48] == Cell(0x6D, 0x17) && Cells()[48..64] == Cell(0xA9, 0x01)
  {
    hide Cell;
  }

  lemma CellMeans(low: Byte, high: Byte)
    ensures CellWidth(Money()) == Some(16) && Stored(Money(), Cell(low, high)) == Some(Amount(low + 256 * high))
  {
  }

  lemma CellMeansAt(i: nat, low: Byte, high: Byte)
    requires i < 4 && Cells()[16 * i..16 * i + 16] == Cell(low, high)
    ensures KindOf(21) != KNone && PhysicalWidth(Money()) == 16
    ensures CellValue(Money(), Cells(), 4, i) == Some(Amount(low + 256 * high))
  {
    CellMeans(low, high);
    CellsExactly(Money(), Cell(low, high));
    hide DecodeCell, Stored, Cells, Cell, KindOf, CellWidth, PhysicalWidth;
    assert CellAt(Cells(), 16, i) == Cells()[16 * i..16 * i + 16];
  }

  lemma CellsMeanAll()
    ensures KindOf(21) != KNone && PhysicalWidth(Money()) == 16
    ensures forall i :: 0 <= i < 4 ==> CellValue(Money(), Cells(), 4, i) == Some([Amount(8900), Amount(6900), Amount(5997), Amount(425)][i])
  {
    CellsMean();
    hide CellValue, Cells, Cell, PhysicalWidth, KindOf;
    CellMeansAt(0, 0xC4, 0x22);
    CellMeansAt(1, 0xF4, 0x1A);
    CellMeansAt(2, 0x6D, 0x17);
    CellMeansAt(3, 0xA9, 0x01);
  }

  lemma RevenuesMean()
    ensures Shaped(RevenuesVec(), Money(), 4) && Meaning(RevenuesVec(), Money(), 4) == Table().cols[1].content
  {
    var b, h := Fixed(Cells()), FlatHead(false, None);
    CellsMeanAll();
    hide CellValue, Cells, PhysicalWidth, KindOf;
    assert BodyShaped(b, Money(), 4, h);
    assert BodyMeaning(b, Money(), 4, h).vals == Table().cols[1].content.vals;
  }

  lemma ProductsMean()
    ensures Shaped(ProductsVec(), Varchar(), 4) && Meaning(ProductsVec(), Varchar(), 4) == Table().cols[0].content
  {
    hide Waders, Decoy, DuckCall, PondSnacks;
    Lengths();
    var b, h := Texts([Waders(), Decoy(), DuckCall(), PondSnacks()]), FlatHead(false, None);
    assert BodyShaped(b, Varchar(), 4, h);
    assert BodyMeaning(b, Varchar(), 4, h).vals == Table().cols[0].content.vals;
  }

  lemma WireColumns()
    ensures ChunkShaped(Wire()) && ChunkMeaning(Wire()) == Table()
  {
    RevenuesMean();
    ProductsMean();
    TypesWritten([]);
    assert Depth(ProductsVec()) == 0 && Depth(RevenuesVec()) == 0;
    hide Shaped, Meaning, ProductsVec, RevenuesVec, Varchar, Money, Height, WellFormed, Depth;
    assert ColumnShaped(Wire().cols[0], 4) && ColumnShaped(Wire().cols[1], 4);
    assert ChunkMeaning(Wire()).cols == Table().cols;
  }

  lemma WireMeans()
    ensures ChunkShaped(Wire()) && ChunksShaped([Some(Wire())]) && ChunksMeaning([Some(Wire())]) == [Table()]
  {
    WireColumns();
    hide ChunkShaped, ChunkMeaning, Wire, Table;
    assert [Some(Wire())][1..] == [];
    assert ChunksMeaning([]) == [];
  }

  /** The captured answer decodes to the query's table. */
  lemma CapturedDecodes()
    ensures var res := DecodePrepare(Frame());
            && res.Success?
            && res.value.schema == [SchemaColumn(Product(), Varchar()), SchemaColumn(Revenue(), Money())]
            && res.value.chunks == [Table()] && !res.value.needsMore && res.value.uuid == Id()
  {
    FrameWritten();
    WireMeans();
    TypesWritten([]);
    hide DecodePrepare, PrepareBytes, Frame, Wire, Table, Varchar, Money, Product, Revenue, Height;
    PrepareBack(Defs(), [Some(Wire())], false, Id());
  }
}
