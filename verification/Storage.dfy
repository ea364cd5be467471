/** The storage pool: files on disk, and the volumes libvirt lists. They differ by the files
    QEMU created behind libvirt's back, until a pool-refresh. */
module Storage {
  import opened Wrappers

  type Bytes = seq<bv8>

  datatype Volume = Volume(data: Bytes, backing: Option<string>)

  datatype Pool = Pool(disk: map<string, Volume>, listed: set<string>) {
    function Create(name: string, v: Volume): Pool {
      Pool(disk[name := v], listed + {name})
    }

    function Write(name: string, data: Bytes): Pool {
      if name in disk then Pool(disk[name := disk[name].(data := data)], listed) else this
    }

    function Delete(name: string): Pool {
      Pool(disk - {name}, listed - {name})
    }

    function Refresh(): Pool {
      Pool(disk, disk.Keys)
    }
  }
}
