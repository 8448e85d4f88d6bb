// The database tables behind backup/db_exec.cpp, with the keys declared in
// sql/backup.sql. A write names whether the server accepted it; a read answers
// what the table holds.
module BackupTables {

  type BrickId = string
  type DiskId = string
  type Path = seq<string>  // relative path, one name for each level

  // BRICK_DISK (primary key DISK_ID), DISK_FILE (primary key BK_FILE) and the
  // column BACKUP_TIME_BEGIN of BRICK_MASTER.
  datatype Tables = Tables(
    brickDisk: map<DiskId, BrickId>,
    diskFile: map<Path, DiskId>,
    beginTime: map<BrickId, int>)

  predicate MayAddDisk(t: Tables, disk: DiskId) {
    disk !in t.brickDisk  // primary key
  }

  predicate MayLogFile(t: Tables, disk: DiskId, file: Path) {
    file !in t.diskFile && disk in t.brickDisk  // primary key and foreign key
  }

  predicate Owns(t: Tables, brick: BrickId, disk: DiskId) {
    disk in t.brickDisk && t.brickDisk[disk] == brick
  }

  // add_disk_for_brick: a disk that is already the brick's is a success.
  function WithDisk(t: Tables, brick: BrickId, disk: DiskId, accepted: bool): Tables {
    if !Owns(t, brick, disk) && MayAddDisk(t, disk) && accepted
    then t.(brickDisk := t.brickDisk[disk := brick])
    else t
  }

  function WithFile(t: Tables, disk: DiskId, file: Path, accepted: bool): Tables {
    if MayLogFile(t, disk, file) && accepted
    then t.(diskFile := t.diskFile[file := disk])
    else t
  }

  // Rows are only ever added to the two log tables: an owner is never replaced
  // and a recorded file never moves to another disk.
  ghost predicate Extends(t: Tables, t': Tables) {
    && (forall d :: d in t.brickDisk ==> d in t'.brickDisk && t'.brickDisk[d] == t.brickDisk[d])
    && (forall p :: p in t.diskFile ==> p in t'.diskFile && t'.diskFile[p] == t.diskFile[p])
  }

  // DISK_FILE.DISK_ID references BRICK_DISK.
  ghost predicate Referenced(t: Tables) {
    forall p :: p in t.diskFile ==> t.diskFile[p] in t.brickDisk
  }

  // One database shared by every worker.
  class Database {
    var brickDisk: map<DiskId, BrickId>
    var diskFile: map<Path, DiskId>
    var beginTime: map<BrickId, int>

    function Rows(): Tables
      reads this
    {
      Tables(brickDisk, diskFile, beginTime)
    }

    // Succeeds exactly when the disk ends up as this brick's.
    method AddDiskForBrick(brick: BrickId, disk: DiskId, accepted: bool) returns (ok: bool)
      modifies this
      ensures Rows() == WithDisk(old(Rows()), brick, disk, accepted)
      ensures ok <==> Owns(Rows(), brick, disk)
    {
      if disk in brickDisk && brickDisk[disk] == brick {
        return true;
      }
      ok := disk !in brickDisk && accepted;
      if ok {
        brickDisk := brickDisk[disk := brick];
      }
    }

    // Succeeds exactly when a new row was written.
    method AddFileLog(disk: DiskId, file: Path, accepted: bool) returns (ok: bool)
      modifies this
      ensures Rows() == WithFile(old(Rows()), disk, file, accepted)
      ensures ok <==> Rows() != old(Rows())
    {
      ok := file !in diskFile && disk in brickDisk && accepted;
      if ok {
        diskFile := diskFile[file := disk];
        assert file in Rows().diskFile && file !in old(Rows()).diskFile;
      }
    }

    // The disk argument of the program is ignored: the path alone is the key.
    method IsBackuped(file: Path) returns (found: bool)
      ensures found <==> file in Rows().diskFile
    {
      found := file in diskFile;
    }

    // An update of a brick without a row changes nothing.
    method UpdateBackupTime(brick: BrickId, begin: int, accepted: bool)
      modifies this
      ensures Rows() == old(Rows()).(beginTime :=
        if accepted && brick in old(beginTime) then old(beginTime)[brick := begin] else old(beginTime))
    {
      if accepted && brick in beginTime {
        beginTime := beginTime[brick := begin];
      }
    }
  }
}
