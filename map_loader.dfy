/** The chunked tile-collision index: a parsed Tiled tilemap, the set of collidable global tile
    ids derived from tileset properties, and the point query over the tilemap's chunks. */
module MapLoading {
  import opened Common

  /** A JSON property value, as far as its truthiness is concerned. */
  datatype PropValue = BoolValue(b: bool) | NumberValue(n: real) | StringValue(s: string) | NullValue

  /** JavaScript truthiness of a property value. */
  predicate TruthyValue(v: PropValue) {
    match v
    case BoolValue(b) => b
    case NumberValue(n) => n != 0.0
    case StringValue(s) => s != ""
    case NullValue => false
  }

  datatype Property = Property(name: string, value: PropValue)

  /** A tileset tile; `properties` may be absent. */
  datatype Tile = Tile(id: int, properties: Option<seq<Property>>)

  datatype Tileset = Tileset(firstgid: int, name: string, tiles: seq<Tile>)

  /** A chunk of a tile layer; `data` holds global tile ids row by row. */
  datatype Chunk = Chunk(data: seq<int>, width: int, height: int, x: int, y: int)

  /** A layer; `layerType` is the JSON `type` field, `chunks` may be absent. */
  datatype Layer = Layer(name: string, layerType: string, chunks: Option<seq<Chunk>>)

  datatype Tilemap = Tilemap(layers: seq<Layer>, tilesets: seq<Tileset>)

  /** The `properties?.some(...)` test: some property is named "collideable" with a truthy value. */
  predicate IsCollideable(t: Tile) {
    t.properties.Some? &&
    exists k :: 0 <= k < |t.properties.value| &&
      t.properties.value[k].name == "collideable" && TruthyValue(t.properties.value[k].value)
  }

  /** The global ids (`tile.id + firstgid`) of the collideable tiles of one tileset. */
  function TileIds(tiles: seq<Tile>, firstgid: int): (r: set<int>)
    ensures forall id :: id in r <==>
      exists j :: 0 <= j < |tiles| && IsCollideable(tiles[j]) && id == tiles[j].id + firstgid
  {
    if |tiles| == 0 then {}
    else
      var last := tiles[|tiles| - 1];
      var before := TileIds(tiles[..|tiles| - 1], firstgid);
      assert forall j :: 0 <= j < |tiles| - 1 ==> tiles[..|tiles| - 1][j] == tiles[j];
      if IsCollideable(last) then before + {last.id + firstgid} else before
  }

  /** The collidable set of a tilemap: exactly the global ids of collideable tiles of any tileset. */
  function CollidableIds(tilesets: seq<Tileset>): (r: set<int>)
    ensures forall id :: id in r <==>
      exists i, j :: 0 <= i < |tilesets| && 0 <= j < |tilesets[i].tiles| &&
        IsCollideable(tilesets[i].tiles[j]) && id == tilesets[i].tiles[j].id + tilesets[i].firstgid
  {
    if |tilesets| == 0 then {}
    else
      var last := tilesets[|tilesets| - 1];
      var before := CollidableIds(tilesets[..|tilesets| - 1]);
      assert forall i :: 0 <= i < |tilesets| - 1 ==> tilesets[..|tilesets| - 1][i] == tilesets[i];
      before + TileIds(last.tiles, last.firstgid)
  }

  /** `findCollidableTiles`: the nested loops over tilesets and their tiles. */
  method FindCollidableTiles(tilemap: Tilemap) returns (collidable: set<int>)
    ensures collidable == CollidableIds(tilemap.tilesets)
  {
    collidable := {};
    var i := 0;
    while i < |tilemap.tilesets|
      invariant 0 <= i <= |tilemap.tilesets|
      invariant collidable == CollidableIds(tilemap.tilesets[..i])
    {
      var tileset := tilemap.tilesets[i];
      var j := 0;
      while j < |tileset.tiles|
        invariant 0 <= j <= |tileset.tiles|
        invariant collidable == CollidableIds(tilemap.tilesets[..i]) + TileIds(tileset.tiles[..j], tileset.firstgid)
      {
        var tile := tileset.tiles[j];
        if IsCollideable(tile) {
          collidable := collidable + {tile.id + tileset.firstgid};
        }
        assert tileset.tiles[..j + 1][..j] == tileset.tiles[..j];
        j := j + 1;
      }
      assert tileset.tiles[..j] == tileset.tiles;
      assert tilemap.tilesets[..i + 1][..i] == tilemap.tilesets[..i];
      i := i + 1;
    }
    assert tilemap.tilesets[..i] == tilemap.tilesets;
  }

  /** Layers the query consults: tile layers that have chunks. */
  predicate Consulted(layer: Layer) {
    layer.layerType == "tilelayer" && layer.chunks.Some?
  }

  /** The window a chunk answers for, as the query writes it:
      [x - width, x) by [y - height, y). */
  predicate Covers(c: Chunk, x: int, y: int) {
    x >= c.x - c.width && x < c.x && y >= c.y - c.height && y < c.y
  }

  /** Row-major index of a point inside a chunk's window. */
  function LocalIndex(c: Chunk, x: int, y: int): int {
    var localX := x - (c.x - c.width);
    var localY := y - (c.y - c.height);
    localY * c.width + localX
  }

  /** A chunk blocks a point when it covers it and the tile at the local index (an index
      past the data reads `undefined`, which is in no set) is collidable. */
  predicate ChunkBlocks(c: Chunk, collidable: set<int>, x: int, y: int) {
    Covers(c, x, y) &&
    var index := LocalIndex(c, x, y);
    0 <= index < |c.data| && c.data[index] in collidable
  }

  /** Some chunk of some consulted layer blocks the point. */
  predicate Blocked(tilemap: Tilemap, collidable: set<int>, x: int, y: int) {
    exists l, k :: 0 <= l < |tilemap.layers| && Consulted(tilemap.layers[l]) &&
      0 <= k < |tilemap.layers[l].chunks.value| && ChunkBlocks(tilemap.layers[l].chunks.value[k], collidable, x, y)
  }

  /** For a covered point the local index addresses a cell of the width x height chunk. */
  lemma LocalIndexInChunk(c: Chunk, x: int, y: int)
    requires Covers(c, x, y)
    ensures 0 <= LocalIndex(c, x, y) < c.width * c.height
  {
    var localX := x - (c.x - c.width);
    var localY := y - (c.y - c.height);
    assert 0 <= localX < c.width && 0 <= localY < c.height;
    assert localY * c.width <= (c.height - 1) * c.width by {
      assert (c.height - 1 - localY) * c.width >= 0;
    }
    assert (c.height - 1) * c.width + c.width == c.width * c.height;
  }

  /** A tilemap with no chunked tile layer blocks nothing. */
  lemma NoChunkedLayerBlocksNothing(tilemap: Tilemap, collidable: set<int>, x: int, y: int)
    requires forall l :: 0 <= l < |tilemap.layers| ==> !Consulted(tilemap.layers[l])
    ensures !Blocked(tilemap, collidable, x, y)
  {
  }

  /** A point no chunk of a consulted layer covers is never blocked. */
  lemma UncoveredNeverBlocked(tilemap: Tilemap, collidable: set<int>, x: int, y: int)
    requires forall l, k ::
      (0 <= l < |tilemap.layers| && Consulted(tilemap.layers[l]) && 0 <= k < |tilemap.layers[l].chunks.value|)
      ==> !Covers(tilemap.layers[l].chunks.value[k], x, y)
    ensures !Blocked(tilemap, collidable, x, y)
  {
  }

  /** With this window a chunk never answers for its own (x, y) corner, which the Tiled
      format makes its top-left tile. */
  lemma ChunkCornerNotCovered(c: Chunk)
    ensures !Covers(c, c.x, c.y)
  {
  }

  /** The loaded tilemap and its collidable set, both fixed once built. */
  class MapLoader {
    const tilemap: Tilemap
    const collidableTiles: set<int>

    /** Takes the parsed tilemap (reading and parsing the file is not modelled) and derives
        its collidable set. */
    constructor (tilemap: Tilemap)
      ensures this.tilemap == tilemap
      ensures collidableTiles == CollidableIds(tilemap.tilesets)
    {
      this.tilemap := tilemap;
      var collidable := FindCollidableTiles(tilemap);
      this.collidableTiles := collidable;
    }

    /** `isTileBlocked(x, y)`: scans the consulted layers' chunks in order and returns on the
        first blocking one. It has no modifies clause, so it reads only. */
    method IsTileBlocked(x: int, y: int) returns (blocked: bool)
      ensures blocked <==> Blocked(tilemap, collidableTiles, x, y)
    {
      var l := 0;
      while l < |tilemap.layers|
        invariant 0 <= l <= |tilemap.layers|
        invariant forall a, k ::
          (0 <= a < l && Consulted(tilemap.layers[a]) && 0 <= k < |tilemap.layers[a].chunks.value|)
          ==> !ChunkBlocks(tilemap.layers[a].chunks.value[k], collidableTiles, x, y)
      {
        var layer := tilemap.layers[l];
        if layer.layerType == "tilelayer" && layer.chunks.Some? {
          var chunks := layer.chunks.value;
          var k := 0;
          while k < |chunks|
            invariant 0 <= k <= |chunks|
            invariant forall b :: 0 <= b < k ==> !ChunkBlocks(chunks[b], collidableTiles, x, y)
          {
            var chunk := chunks[k];
            if x >= chunk.x - chunk.width && x < chunk.x && y >= chunk.y - chunk.height && y < chunk.y {
              var localX := x - (chunk.x - chunk.width);
              var localY := y - (chunk.y - chunk.height);
              var index := localY * chunk.width + localX;
              if 0 <= index < |chunk.data| && chunk.data[index] in collidableTiles {
                return true;
              }
            }
            k := k + 1;
          }
        }
        l := l + 1;
      }
      return false;
    }
  }
}
