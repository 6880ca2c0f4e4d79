/**
 * Scene saving (RadioSimulator/files.py): the walls of a scene become one
 * record each, in order, and the materials they use are collected once per
 * material name. The program then writes the result out as indented JSON;
 * that output is not part of the model.
 */
module Files {
  import opened Props

  /** What is saved of one wall: its endpoints, its width and the name of its material. */
  datatype WallRecord = WallRecord(points: Line, width: real, material: string)

  /** The saved scene: materials by name, and the wall records in wall order. */
  datatype SavedScene = SavedScene(materials: map<string, Material>, walls: seq<WallRecord>)

  /** The record of one wall. */
  function Record(wall: Wall): WallRecord {
    WallRecord(wall.points, wall.width, wall.material.name)
  }

  /** The names of the materials the walls use. */
  ghost function NamesUsed(walls: seq<Wall>): set<string> {
    set i | 0 <= i < |walls| :: walls[i].material.name
  }

  /** Wall `j` is the first wall whose material is called `name`. */
  ghost predicate FirstUse(walls: seq<Wall>, name: string, j: int) {
    0 <= j < |walls| && walls[j].material.name == name &&
    forall i :: 0 <= i < j ==> walls[i].material.name != name
  }

  /**
   * Builds the saved form of a scene: one record per wall in order, and for
   * each material name in use the material of the first wall that uses it
   * (a later wall with a material of the same name does not replace it).
   */
  method SaveScene(walls: seq<Wall>) returns (combined: SavedScene)
    ensures walls == [] ==> combined == SavedScene(map[], [])
    ensures |combined.walls| == |walls|
    ensures forall i :: 0 <= i < |walls| ==> combined.walls[i] == Record(walls[i])
    ensures combined.materials.Keys == NamesUsed(walls)
    ensures forall j :: 0 <= j < |walls| && FirstUse(walls, walls[j].material.name, j) ==>
              combined.materials[walls[j].material.name] == walls[j].material
  {
    var wallsList: seq<WallRecord> := [];
    var materialsList: map<string, Material> := map[];
    for n := 0 to |walls|
      invariant |wallsList| == n
      invariant forall i :: 0 <= i < n ==> wallsList[i] == Record(walls[i])
      invariant materialsList.Keys == NamesUsed(walls[..n])
      invariant forall j :: 0 <= j < |walls| && FirstUse(walls, walls[j].material.name, j) && j < n ==>
                  materialsList[walls[j].material.name] == walls[j].material
    {
      var wall := walls[n];
      var wallDict := WallRecord(wall.points, wall.width, wall.material.name);
      // A Material is a non-empty tuple, so a stored one is never falsy: only a missing name is.
      if wall.material.name !in materialsList {
        NamesUsedMissing(walls, n);
        materialsList := materialsList[wall.material.name := wall.material];
      }
      wallsList := wallsList + [wallDict];
      NamesUsedGrow(walls, n);
    }
    assert walls[..|walls|] == walls;
    combined := SavedScene(materialsList, wallsList);
  }

  /** The names in use grow by the next wall's material name. */
  lemma NamesUsedGrow(walls: seq<Wall>, n: nat)
    requires n < |walls|
    ensures NamesUsed(walls[..n + 1]) == NamesUsed(walls[..n]) + {walls[n].material.name}
  {
    var before := walls[..n];
    var after := walls[..n + 1];
    forall name | name in NamesUsed(after)
      ensures name in NamesUsed(before) + {walls[n].material.name}
    {
      var i :| 0 <= i < |after| && after[i].material.name == name;
      if i < n {
        assert before[i] == after[i];
      }
    }
    forall name | name in NamesUsed(before) + {walls[n].material.name}
      ensures name in NamesUsed(after)
    {
      if name in NamesUsed(before) {
        var i :| 0 <= i < |before| && before[i].material.name == name;
        assert after[i] == before[i];
      } else {
        assert after[n] == walls[n];
      }
    }
  }

  /** A name that does not occur among the first `n` walls is first used by wall `n`, if wall `n` uses it. */
  lemma NamesUsedMissing(walls: seq<Wall>, n: nat)
    requires n < |walls| && walls[n].material.name !in NamesUsed(walls[..n])
    ensures FirstUse(walls, walls[n].material.name, n)
  {
    forall i | 0 <= i < n
      ensures walls[i].material.name != walls[n].material.name
    {
      assert walls[..n][i] == walls[i];
    }
  }

  /**
   * Only the first material of each name is kept: a wall whose material
   * shares a name with an earlier wall's is saved with that earlier
   * material, so a different material of the same name is lost.
   */
  lemma FirstMaterialWins(walls: seq<Wall>, j: nat, combined: SavedScene)
    requires j < |walls| && FirstUse(walls, walls[j].material.name, j)
    requires combined.materials.Keys == NamesUsed(walls)
    requires forall i :: 0 <= i < |walls| && FirstUse(walls, walls[i].material.name, i) ==>
               combined.materials[walls[i].material.name] == walls[i].material
    ensures forall i :: j < i < |walls| && walls[i].material.name == walls[j].material.name ==>
              combined.materials[walls[i].material.name] == walls[j].material
  {
  }

  /** Every saved wall record names a material that is saved. */
  lemma RecordsNameSavedMaterials(walls: seq<Wall>, combined: SavedScene)
    requires |combined.walls| == |walls|
    requires forall i :: 0 <= i < |walls| ==> combined.walls[i] == Record(walls[i])
    requires combined.materials.Keys == NamesUsed(walls)
    ensures forall i :: 0 <= i < |combined.walls| ==> combined.walls[i].material in combined.materials
  {
    forall i | 0 <= i < |combined.walls|
      ensures combined.walls[i].material in combined.materials
    {
      assert combined.walls[i].material == walls[i].material.name;
    }
  }

  /** Each saved material is the first one of its name, and is saved under its own name. */
  lemma SavedMaterialsAreFirstUses(walls: seq<Wall>, combined: SavedScene)
    requires combined.materials.Keys == NamesUsed(walls)
    requires forall i :: 0 <= i < |walls| && FirstUse(walls, walls[i].material.name, i) ==>
               combined.materials[walls[i].material.name] == walls[i].material
    ensures forall name :: name in combined.materials ==>
              combined.materials[name].name == name &&
              exists j :: FirstUse(walls, name, j) && combined.materials[name] == walls[j].material
  {
    forall name | name in combined.materials
      ensures combined.materials[name].name == name
      ensures exists j :: FirstUse(walls, name, j) && combined.materials[name] == walls[j].material
    {
      var j := FirstIndex(walls, name);
      assert FirstUse(walls, walls[j].material.name, j);
    }
  }

  /** The first wall using a name that is in use. */
  lemma FirstIndex(walls: seq<Wall>, name: string) returns (j: nat)
    requires name in NamesUsed(walls)
    ensures FirstUse(walls, name, j)
  {
    var i :| 0 <= i < |walls| && walls[i].material.name == name;
    j := i;
    while j > 0 && exists m :: 0 <= m < j && walls[m].material.name == name
      invariant 0 <= j < |walls| && walls[j].material.name == name
      decreases j
    {
      var m :| 0 <= m < j && walls[m].material.name == name;
      j := m;
    }
  }
}
